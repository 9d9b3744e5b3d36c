/** The user-level iterator (db/db_iter.cc): a bidirectional state machine over the merged internal
    entries, proved to be a cursor over the keys that are live at its snapshot. */
module DbIter {
  import opened DbFormat

  // ---- What is iterated over ----

  /** Entry i is the newest visible entry of its user key (entries sort newest first) and is not a deletion. */
  ghost predicate IsLive(es: seq<Entry>, s: SequenceNumber, i: int) {
    && 0 <= i < |es| && es[i].key.seqNo <= s && es[i].key.vtype.Value?
    && forall j :: 0 <= j < i && es[j].key.user == es[i].key.user ==> es[j].key.seqNo > s
  }

  /** The positions of the live entries among the first n, in ascending order. */
  ghost function LiveUpTo(es: seq<Entry>, s: SequenceNumber, n: nat): (live: seq<nat>)
    requires n <= |es|
    ensures forall r :: 0 <= r < |live| ==> live[r] < n && IsLive(es, s, live[r])
  {
    if n == 0 then [] else LiveUpTo(es, s, n - 1) + if IsLive(es, s, n - 1) then [n - 1] else []
  }

  ghost function Live(es: seq<Entry>, s: SequenceNumber): seq<nat> {
    LiveUpTo(es, s, |es|)
  }

  ghost function Rank(es: seq<Entry>, s: SequenceNumber, i: nat): nat
    requires i <= |es|
  {
    |LiveUpTo(es, s, i)|
  }

  ghost predicate NoneLive(es: seq<Entry>, s: SequenceNumber, a: int, b: int) {
    forall i :: a <= i < b ==> !IsLive(es, s, i)
  }

  lemma {:induction false} RankFlat(es: seq<Entry>, s: SequenceNumber, a: nat, b: nat)
    requires a <= b <= |es| && NoneLive(es, s, a, b)
    ensures Rank(es, s, a) == Rank(es, s, b)
  {
    if a < b {
      RankFlat(es, s, a, b - 1);
    }
  }

  lemma {:induction false} LivePrefix(es: seq<Entry>, s: SequenceNumber, a: nat, b: nat)
    requires a <= b <= |es|
    ensures LiveUpTo(es, s, a) <= LiveUpTo(es, s, b)
  {
    if a < b {
      LivePrefix(es, s, a, b - 1);
    }
  }

  /** A live entry stands in the list of live positions at its rank. */
  lemma LiveAtRank(es: seq<Entry>, s: SequenceNumber, i: nat)
    requires IsLive(es, s, i)
    ensures Rank(es, s, i) < |Live(es, s)| && Live(es, s)[Rank(es, s, i)] == i
    ensures Rank(es, s, i + 1) == Rank(es, s, i) + 1
  {
    LivePrefix(es, s, i + 1, |es|);
  }

  lemma {:induction false} RankOfLive(es: seq<Entry>, s: SequenceNumber, n: nat, r: nat)
    requires n <= |es| && r < Rank(es, s, n)
    ensures Rank(es, s, LiveUpTo(es, s, n)[r]) == r
  {
    if r < Rank(es, s, n - 1) {
      RankOfLive(es, s, n - 1, r);
    }
  }

  /** The live positions before i are the first Rank(i) members of the list. */
  lemma RankSplits(es: seq<Entry>, s: SequenceNumber, i: nat, r: nat)
    requires i <= |es| && r < |Live(es, s)|
    ensures Live(es, s)[r] < i <==> r < Rank(es, s, i)
  {
    var j := Live(es, s)[r];
    RankOfLive(es, s, |es|, r);
    if j < i {
      LivePrefix(es, s, j + 1, i);
    } else {
      LivePrefix(es, s, i, j);
    }
  }

  lemma UserAscends(es: seq<Entry>, i: nat, j: nat)
    requires Sorted(es) && i <= j < |es|
    ensures es[i].key.user <= es[j].key.user
  {
    assert i < j ==> Less(es[i].key, es[j].key);
  }

  /** The live list enumerates, in strictly ascending key order, exactly what a point read at the snapshot sees. */
  lemma LiveIsRead(es: seq<Entry>, s: SequenceNumber, k: UserKey, v: Bytes)
    requires Sorted(es) && Distinct(ToSet(es))
    ensures Read(ToSet(es), k, s) == Some(v) <==>
      exists r :: 0 <= r < |Live(es, s)| && var e := es[Live(es, s)[r]]; e.key.user == k && e.value == v
    ensures forall q, r :: 0 <= q < r < |Live(es, s)| ==> es[Live(es, s)[q]].key.user < es[Live(es, s)[r]].key.user
  {
    forall r | 0 <= r < |Live(es, s)|
      ensures var e := es[Live(es, s)[r]]; Newest(ToSet(es), e.key.user, s) == Some(e) && e.key.vtype.Value?
    {
      LiveIsNewest(es, s, Live(es, s)[r]);
    }
    if Read(ToSet(es), k, s) == Some(v) {
      NewestExists(ToSet(es), k, s);
      var e := Newest(ToSet(es), k, s).value;
      var i := NewestIsLive(es, s, k, e);
      LiveAtRank(es, s, i);
    }
    forall q, r | 0 <= q < r < |Live(es, s)|
      ensures es[Live(es, s)[q]].key.user < es[Live(es, s)[r]].key.user
    {
      LiveUsersAscend(es, s, q, r);
    }
  }

  lemma LiveUsersAscend(es: seq<Entry>, s: SequenceNumber, q: nat, r: nat)
    requires Sorted(es) && q < r < |Live(es, s)|
    ensures es[Live(es, s)[q]].key.user < es[Live(es, s)[r]].key.user
  {
    var i, j := Live(es, s)[q], Live(es, s)[r];
    RankOfLive(es, s, |es|, q);
    RankSplits(es, s, i, r);
    UserAscends(es, i, j);
    assert IsLive(es, s, i) && IsLive(es, s, j);
    RankOfLive(es, s, |es|, r);
    assert i != j;
  }

  lemma LiveIsNewest(es: seq<Entry>, s: SequenceNumber, i: nat)
    requires Sorted(es) && Distinct(ToSet(es)) && IsLive(es, s, i)
    ensures Newest(ToSet(es), es[i].key.user, s) == Some(es[i])
  {
    var e := es[i];
    forall x | x in ToSet(es) && Visible(x, e.key.user, s) ensures x.key.seqNo <= e.key.seqNo {
      var j :| 0 <= j < |es| && es[j] == x;
      assert i < j ==> Less(es[i].key, es[j].key);
    }
    NewestIs(ToSet(es), e.key.user, s, e);
  }

  lemma NewestIsLive(es: seq<Entry>, s: SequenceNumber, k: UserKey, e: Entry) returns (i: nat)
    requires Sorted(es) && Distinct(ToSet(es)) && IsNewest(ToSet(es), k, s, e) && e.key.vtype.Value?
    ensures IsLive(es, s, i) && es[i] == e
  {
    i :| 0 <= i < |es| && es[i] == e;
    forall j | 0 <= j < i && es[j].key.user == k ensures es[j].key.seqNo > s {
      var x := es[j];
      assert Less(es[j].key, es[i].key);
      assert x in ToSet(es) && (SameWrite(x, e) ==> x == e);
    }
  }

  // ---- Views that differ in newer entries only ----

  /** The same entries at or below the sequence number; above it anything may differ. */
  ghost predicate SameBelow(a: seq<Entry>, b: seq<Entry>, s: SequenceNumber) {
    forall e: Entry {:trigger e in a} {:trigger e in b} :: e.key.seqNo <= s ==> (e in a <==> e in b)
  }

  lemma IndexOrder(es: seq<Entry>, i: nat, j: nat)
    requires Sorted(es) && i < |es| && j < |es| && Less(es[i].key, es[j].key)
    ensures i < j
  {
    assert j < i ==> Less(es[j].key, es[i].key);
  }

  lemma Reappears(a: seq<Entry>, b: seq<Entry>, s: SequenceNumber, i: nat) returns (j: nat)
    requires SameBelow(a, b, s) && i < |a| && a[i].key.seqNo <= s
    ensures j < |b| && b[j] == a[i]
  {
    assert a[i] in b;
    j :| 0 <= j < |b| && b[j] == a[i];
  }

  /** Two entries that both views have stand in the same order in both. */
  lemma SameOrder(a: seq<Entry>, b: seq<Entry>, i: nat, i': nat, j: nat, j': nat)
    requires Sorted(a) && Sorted(b) && i < |a| && i' < j' < |b| && j < |a| && a[i] == b[i'] && a[j] == b[j']
    ensures i < j
  {
    assert Less(b[i'].key, b[j'].key);
    IndexOrder(a, i, j);
  }

  lemma LiveReappears(a: seq<Entry>, b: seq<Entry>, s: SequenceNumber, i: nat, j: nat)
    requires Sorted(a) && Sorted(b) && SameBelow(a, b, s) && IsLive(a, s, i) && j < |b| && a[i] == b[j]
    ensures IsLive(b, s, j)
  {
    forall k | 0 <= k < j && b[k].key.user == b[j].key.user ensures b[k].key.seqNo > s {
      if b[k].key.seqNo <= s {
        var k' := Reappears(b, a, s, k);
        SameOrder(a, b, k', k, i, j);
      }
    }
  }

  /** The live entries among the first n. */
  ghost function LiveBefore(es: seq<Entry>, s: SequenceNumber, n: nat): set<Entry>
    requires n <= |es|
  {
    if n == 0 then {} else LiveBefore(es, s, n - 1) + if IsLive(es, s, n - 1) then {es[n - 1]} else {}
  }

  lemma {:induction false} LiveBeforeMembers(es: seq<Entry>, s: SequenceNumber, n: nat)
    requires n <= |es|
    ensures forall e :: e in LiveBefore(es, s, n) <==> exists i :: 0 <= i < n && IsLive(es, s, i) && es[i] == e
  {
    if n > 0 {
      LiveBeforeMembers(es, s, n - 1);
    }
  }

  lemma {:induction false} RankCounts(es: seq<Entry>, s: SequenceNumber, n: nat)
    requires Sorted(es) && n <= |es|
    ensures |LiveBefore(es, s, n)| == Rank(es, s, n)
  {
    if n > 0 {
      RankCounts(es, s, n - 1);
      LiveBeforeMembers(es, s, n - 1);
      assert es[n - 1] !in LiveBefore(es, s, n - 1) by {
        assert forall i :: 0 <= i < n - 1 ==> Less(es[i].key, es[n - 1].key);
      }
    }
  }

  /** Two positions of two views that match: the same entry, or both ends. */
  ghost predicate SamePlace(a: seq<Entry>, b: seq<Entry>, i: nat, j: nat) {
    i <= |a| && j <= |b| && if i < |a| then j < |b| && a[i] == b[j] else j == |b|
  }

  lemma LiveBeforeStays(a: seq<Entry>, b: seq<Entry>, s: SequenceNumber, i: nat, j: nat)
    requires Sorted(a) && Sorted(b) && SameBelow(a, b, s) && SamePlace(a, b, i, j)
    ensures LiveBefore(a, s, i) <= LiveBefore(b, s, j)
  {
    LiveBeforeMembers(a, s, i);
    LiveBeforeMembers(b, s, j);
    forall e | e in LiveBefore(a, s, i) ensures e in LiveBefore(b, s, j) {
      var k :| 0 <= k < i && IsLive(a, s, k) && a[k] == e;
      var k' := Reappears(a, b, s, k);
      LiveReappears(a, b, s, k, k');
      if j < |b| {
        SameOrder(b, a, k', k, j, i);
      }
    }
  }

  lemma SameRank(a: seq<Entry>, b: seq<Entry>, s: SequenceNumber, i: nat, j: nat)
    requires Sorted(a) && Sorted(b) && SameBelow(a, b, s) && SamePlace(a, b, i, j)
    ensures Rank(a, s, i) == Rank(b, s, j)
  {
    LiveBeforeStays(a, b, s, i, j);
    LiveBeforeStays(b, a, s, j, i);
    assert LiveBefore(a, s, i) == LiveBefore(b, s, j);
    RankCounts(a, s, i);
    RankCounts(b, s, j);
  }

  /** Both views have the same live entries, one by one. */
  lemma SameLive(a: seq<Entry>, b: seq<Entry>, s: SequenceNumber)
    requires Sorted(a) && Sorted(b) && SameBelow(a, b, s)
    ensures |Live(a, s)| == |Live(b, s)|
    ensures forall r :: 0 <= r < |Live(a, s)| ==> a[Live(a, s)[r]] == b[Live(b, s)[r]]
  {
    SameRank(a, b, s, |a|, |b|);
    forall r | 0 <= r < |Live(a, s)| ensures a[Live(a, s)[r]] == b[Live(b, s)[r]] {
      var i := Live(a, s)[r];
      RankOfLive(a, s, |a|, r);
      var j := Reappears(a, b, s, i);
      LiveReappears(a, b, s, i, j);
      SameRank(a, b, s, i, j);
      LiveAtRank(b, s, j);
    }
  }

  lemma OnePlace(es: seq<Entry>, i: nat, j: nat)
    requires Sorted(es) && i < |es| && j < |es| && es[i] == es[j]
    ensures i == j
  {
    assert i < j ==> Less(es[i].key, es[j].key);
    assert j < i ==> Less(es[j].key, es[i].key);
  }

  /** Entry i is the first visible one after position p, which is before it or the end. */
  ghost predicate NewerAfter(es: seq<Entry>, s: SequenceNumber, p: nat, i: nat) {
    i < |es| && (p < |es| ==> p < i) && forall k :: (if p < |es| then p + 1 else 0) <= k < i ==> es[k].key.seqNo > s
  }

  lemma NewerBetween(a: seq<Entry>, b: seq<Entry>, s: SequenceNumber, p: nat, p': nat, i: nat, i': nat)
    requires Sorted(a) && Sorted(b) && SameBelow(a, b, s) && SamePlace(a, b, p, p')
    requires NewerAfter(a, s, p, i) && i' < |b| && a[i] == b[i']
    ensures NewerAfter(b, s, p', i')
  {
    if p < |a| {
      SameOrder(b, a, p', p, i', i);
    }
    forall k | (if p' < |b| then p' + 1 else 0) <= k < i' ensures b[k].key.seqNo > s {
      if b[k].key.seqNo <= s {
        var k' := Reappears(b, a, s, k);
        SameOrder(a, b, k', k, i, i');
        if p < |a| {
          SameOrder(a, b, p, p', k', k);
        }
      }
    }
  }

  // ---- The internal iterator (the merge of all memtables and tables) ----

  /** A cursor over the sorted internal entries; the position |entries| means "not valid". */
  class InternalIterator {
    var entries: seq<Entry>
    var pos: nat

    constructor (es: seq<Entry>)
      ensures entries == es && pos == |es|
    {
      entries := es;
      pos := |es|;
    }

    predicate AtEntry()
      reads this
    {
      pos < |entries|
    }

    /** The entries change under the iterator. */
    method ShowView(view: seq<Entry>, p: nat)
      modifies this
      ensures entries == view && pos == p
    {
      entries, pos := view, p;
    }

    method SeekToFirst()
      modifies `pos
      ensures pos == 0
    {
      pos := 0;
    }

    method SeekToLast()
      modifies `pos
      ensures pos == if entries == [] then 0 else |entries| - 1
    {
      pos := if entries == [] then 0 else |entries| - 1;
    }

    method Seek(target: InternalKey)
      modifies `pos
      ensures pos == LowerBound(entries, target)
    {
      pos := LowerBound(entries, target);
    }

    method Next()
      requires AtEntry()
      modifies `pos
      ensures pos == old(pos) + 1
    {
      pos := pos + 1;
    }

    method Prev()
      requires AtEntry()
      modifies `pos
      ensures pos == if old(pos) == 0 then |entries| else old(pos) - 1
    {
      pos := if pos == 0 then |entries| else pos - 1;
    }
  }

  // ---- DBIter ----

  datatype Direction = Forward | Reverse

  class DBIter {
    const iter: InternalIterator
    const sequence: SequenceNumber
    /** saved_key_; None stands for the cleared string, which is never compared. */
    var savedKey: Option<UserKey>
    var savedValue: Bytes
    var direction: Direction
    var valid: bool
    /** The position of the live entry the iterator shows. */
    ghost var at: nat

    ghost predicate Settled()
      reads this, iter
    {
      && Sorted(iter.entries) && iter.pos <= |iter.entries|
      && (valid ==> IsLive(iter.entries, sequence, at))
      && (valid && direction.Forward? ==> iter.pos == at)
      && (valid && direction.Reverse? ==> ReversePosition())
    }

    /** Moving backwards: the current pair is saved, and the internal iterator stands before it with only
        invisible entries in between. */
    ghost predicate ReversePosition()
      requires at < |iter.entries| && iter.pos <= |iter.entries|
      reads this, iter
    {
      var es := iter.entries;
      && savedKey == Some(es[at].key.user) && savedValue == es[at].value
      && (iter.AtEntry() ==> es[iter.pos].key.user < es[at].key.user)
      && NewerAfter(es, sequence, iter.pos, at)
    }

    /** Where the iterator is in the list of live keys. */
    ghost function Cursor(): nat
      requires at <= |iter.entries|
      reads this, iter`entries
    {
      Rank(iter.entries, sequence, at)
    }

    ghost function LiveList(): seq<nat>
      reads this, iter`entries
    {
      Live(iter.entries, sequence)
    }

    constructor (internal: InternalIterator, s: SequenceNumber)
      requires Sorted(internal.entries) && internal.pos <= |internal.entries|
      ensures iter == internal && sequence == s && !valid && Settled()
    {
      iter, sequence := internal, s;
      savedKey, savedValue, direction, valid := None, [], Forward, false;
    }

    /** Between two calls other threads insert entries above the sequence number into the memtable. The internal
        iterator stays on its entry. Which of the new entries its children will still meet depends on where they
        stand, so the view may differ in any entries above the sequence number. */
    method ViewChanges(view: seq<Entry>)
      requires Settled() && Sorted(view) && SameBelow(iter.entries, view, sequence)
      requires iter.AtEntry() ==> iter.entries[iter.pos] in view
      modifies iter, `at
      ensures Settled() && iter.entries == view
      ensures |LiveList()| == |old(LiveList())|
      ensures forall r :: 0 <= r < |LiveList()| ==> view[LiveList()[r]] == old(iter.entries[LiveList()[r]])
      ensures valid ==> old(at) < |old(iter.entries)| && Cursor() == old(Cursor())
    {
      ghost var es, from, here := iter.entries, iter.pos, at;
      ghost var there := at;
      var p := |view|;
      if iter.AtEntry() {
        p :| 0 <= p < |view| && view[p] == iter.entries[iter.pos];
      }
      if valid {
        there := Reappears(es, view, sequence, at);
        LiveReappears(es, view, sequence, at, there);
        SameRank(es, view, sequence, at, there);
        if direction.Reverse? {
          NewerBetween(es, view, sequence, from, p, at, there);
        } else {
          OnePlace(view, p, there);
        }
      }
      SameLive(es, view, sequence);
      iter.ShowView(view, p);
      at := there;
    }

    /** key() and value(): the pair at the cursor. */
    method Current() returns (key: UserKey, value: Bytes)
      requires Settled() && valid
      ensures Cursor() < |LiveList()|
      ensures key == iter.entries[LiveList()[Cursor()]].key.user
      ensures value == iter.entries[LiveList()[Cursor()]].value
    {
      LiveAtRank(iter.entries, sequence, at);
      key := if direction.Forward? then iter.entries[iter.pos].key.user else savedKey.value;
      value := if direction.Forward? then iter.entries[iter.pos].value else savedValue;
    }

    /** Entry i is to be passed over because its key is at or before the key to skip. */
    static predicate Skipped(es: seq<Entry>, skip: Option<UserKey>, i: int)
      requires 0 <= i < |es|
    {
      skip.Some? && es[i].key.user <= skip.value
    }

    /** What the forward scan relies on when it stands at p: no key that is not skipped has a visible entry
        before p, and keys before the skipped one have no visible entry left. */
    static ghost predicate ForwardReady(es: seq<Entry>, s: SequenceNumber, skip: Option<UserKey>, p: int) {
      && (forall i, j :: 0 <= j < p <= i < |es| && es[j].key.user == es[i].key.user && !Skipped(es, skip, i)
            ==> es[j].key.seqNo > s)
      && (skip.Some? ==> forall i :: 0 <= p <= i < |es| && es[i].key.user < skip.value ==> es[i].key.seqNo > s)
    }

    static ghost predicate NoneLiveUnskipped(es: seq<Entry>, s: SequenceNumber, skip: Option<UserKey>, a: int, b: int) {
      forall i :: 0 <= a <= i < b <= |es| && !Skipped(es, skip, i) ==> !IsLive(es, s, i)
    }

    /** The key to skip after looking at entry p: a visible deletion hides the rest of its key. */
    static function NextSkip(es: seq<Entry>, s: SequenceNumber, skip: Option<UserKey>, p: nat): Option<UserKey>
      requires p < |es|
    {
      if es[p].key.seqNo <= s && es[p].key.vtype.Deletion? then Some(es[p].key.user) else skip
    }

    static ghost predicate Accepts(es: seq<Entry>, s: SequenceNumber, skip: Option<UserKey>, p: nat)
      requires p < |es|
    {
      es[p].key.seqNo <= s && es[p].key.vtype.Value? && !Skipped(es, skip, p)
    }

    static lemma ForwardAccept(es: seq<Entry>, s: SequenceNumber, skip: Option<UserKey>, p: nat)
      requires ForwardReady(es, s, skip, p) && p < |es| && Accepts(es, s, skip, p)
      ensures IsLive(es, s, p)
    {
    }

    /** The forward scan has come from `start` to p without an acceptable entry, skipping first `skip0` and now `now`. */
    static ghost predicate Scanning(es: seq<Entry>, s: SequenceNumber, skip0: Option<UserKey>, now: Option<UserKey>,
                                    start: nat, p: nat) {
      && start <= p && ForwardReady(es, s, now, p)
      && NoneLiveUnskipped(es, s, skip0, start, p)
      && (skip0.Some? ==> now.Some? && skip0.value <= now.value)
      && forall i :: p <= i < |es| && IsLive(es, s, i) && Skipped(es, now, i) ==> Skipped(es, skip0, i)
    }

    static lemma ForwardStep(es: seq<Entry>, s: SequenceNumber, skip0: Option<UserKey>, now: Option<UserKey>,
                             start: nat, p: nat)
      requires Sorted(es) && p < |es| && Scanning(es, s, skip0, now, start, p) && !Accepts(es, s, now, p)
      ensures Scanning(es, s, skip0, NextSkip(es, s, now, p), start, p + 1)
    {
      forall i | p <= i < |es| ensures es[p].key.user <= es[i].key.user { UserAscends(es, p, i); }
    }

    /** FindNextUserEntry: the first live entry at or after the internal position whose key is not skipped.
        When `skipping`, saved_key_ is the key to skip; otherwise it is scratch space. */
    method FindNextUserEntry(skipping: bool)
      requires Sorted(iter.entries) && iter.AtEntry() && direction.Forward?
      requires skipping ==> savedKey.Some?
      requires ForwardReady(iter.entries, sequence, if skipping then savedKey else None, iter.pos)
      modifies this, iter`pos
      ensures Settled() && direction.Forward?
      ensures
        var skip := old(if skipping then savedKey else None);
        var end := if valid then at else |iter.entries|;
        && NoneLiveUnskipped(iter.entries, sequence, skip, old(iter.pos), end)
        && (valid ==> old(iter.pos) <= at && !Skipped(iter.entries, skip, at))
    {
      var es := iter.entries;
      ghost var start := iter.pos;
      ghost var skip0 := if skipping then savedKey else None;
      ghost var now := skip0;
      var skip := skipping;
      while iter.pos < |es|
        invariant iter.pos <= |es| && direction.Forward?
        invariant skip ==> savedKey.Some?
        invariant now == if skip then savedKey else None
        invariant Scanning(es, sequence, skip0, now, start, iter.pos)
        decreases |es| - iter.pos
      {
        var e := es[iter.pos];
        if e.key.seqNo <= sequence {
          match e.key.vtype {
            case Deletion =>
              savedKey := Some(e.key.user);
              skip := true;
            case Value =>
              if skip && e.key.user <= savedKey.value {
                // hidden
              } else {
                ForwardAccept(es, sequence, now, iter.pos);
                valid := true;
                savedKey := None;
                at := iter.pos;
                return;
              }
          }
        }
        ForwardStep(es, sequence, skip0, now, start, iter.pos);
        now := NextSkip(es, sequence, now, iter.pos);
        iter.Next();
      }
      savedKey := None;
      valid := false;
    }

    /** The forward scan may start at p, at or before the current entry, if it skips the current key. */
    static lemma SkipsCurrent(es: seq<Entry>, s: SequenceNumber, current: nat, p: nat)
      requires Sorted(es) && p <= current < |es| && forall i :: p <= i < current ==> es[i].key.seqNo > s
      ensures ForwardReady(es, s, Some(es[current].key.user), p)
    {
      forall i | current <= i < |es| ensures es[current].key.user <= es[i].key.user { UserAscends(es, current, i); }
      forall i | 0 <= i < current ensures es[i].key.user <= es[current].key.user { UserAscends(es, i, current); }
    }

    static lemma NoneLiveFrom(es: seq<Entry>, s: SequenceNumber, current: nat, from: nat, end: nat)
      requires Sorted(es) && from <= current && IsLive(es, s, current) && end <= |es|
      requires NoneLiveUnskipped(es, s, Some(es[current].key.user), from, end)
      ensures NoneLive(es, s, current + 1, end)
    {
      forall i | current < i < end ensures !IsLive(es, s, i) {
        UserAscends(es, current, i);
        if es[i].key.user != es[current].key.user {
          assert !Skipped(es, Some(es[current].key.user), i);
        }
      }
    }

    /** What such a scan finds is the next live entry. */
    static lemma FoundIsNext(es: seq<Entry>, s: SequenceNumber, current: nat, from: nat, end: nat)
      requires Sorted(es) && from <= current && IsLive(es, s, current) && from <= end <= |es|
      requires NoneLiveUnskipped(es, s, Some(es[current].key.user), from, end)
      requires end < |es| ==> IsLive(es, s, end) && !Skipped(es, Some(es[current].key.user), end)
      ensures Rank(es, s, end) == Rank(es, s, current) + 1
      ensures end < |es| ==> Rank(es, s, end) < |Live(es, s)|
    {
      if end < |es| && end <= current {
        UserAscends(es, end, current);
      }
      NoneLiveFrom(es, s, current, from, end);
      LiveAtRank(es, s, current);
      RankFlat(es, s, current + 1, end);
      if end < |es| {
        LiveAtRank(es, s, end);
      }
    }

    method Next()
      requires Settled() && valid
      modifies this, iter`pos
      ensures Settled()
      ensures valid <==> old(Cursor()) + 1 < |LiveList()|
      ensures valid ==> Cursor() == old(Cursor()) + 1
    {
      var es := iter.entries;
      ghost var current := at;
      if direction.Reverse? {
        direction := Forward;
        if !iter.AtEntry() {
          iter.SeekToFirst();
        } else {
          iter.Next();
        }
        assert iter.AtEntry();
      } else {
        savedKey := Some(es[iter.pos].key.user);
      }
      SkipsCurrent(es, sequence, current, iter.pos);
      ghost var from := iter.pos;
      FindNextUserEntry(true);
      FoundIsNext(es, sequence, current, from, if valid then at else |es|);
    }

    /** No visible entry at or after `end` belongs to a key that also has entries before it. */
    static ghost predicate BackwardReady(es: seq<Entry>, s: SequenceNumber, end: int) {
      forall i, j :: 0 <= i < end <= j < |es| && es[i].key.user == es[j].key.user ==> es[j].key.seqNo > s
    }

    ghost function End(): nat
      reads this, iter
    {
      if iter.AtEntry() then iter.pos + 1 else 0
    }

    /** What has been seen by the backward scan between `from` and `end`: `m` is the last visible entry met, saved
        if it is a value. */
    static ghost predicate Scanned(es: seq<Entry>, s: SequenceNumber, vtype: ValueType, saved: Option<UserKey>,
                                   value: Bytes, m: nat, from: nat, end: nat) {
      && from <= end <= |es|
      && (vtype.Deletion? ==> NoneLive(es, s, from, end))
      && (vtype.Value? ==>
            && from <= m < end && es[m].key.seqNo <= s && es[m].key.vtype.Value?
            && saved == Some(es[m].key.user) && value == es[m].value
            && (forall i :: from <= i < m ==> es[i].key.seqNo > s)
            && NoneLive(es, s, m + 1, end))
    }

    /** A visible entry of the saved key is newer than the saved entry, so that one is not live. */
    static lemma ScanMeets(es: seq<Entry>, s: SequenceNumber, vtype: ValueType, saved: Option<UserKey>, value: Bytes,
                           m: nat, p: nat, end: nat)
      requires Sorted(es) && Scanned(es, s, vtype, saved, value, m, p + 1, end)
      requires es[p].key.seqNo <= s && !(vtype.Value? && es[p].key.user < saved.value)
      ensures NoneLive(es, s, p + 1, end)
    {
      if vtype.Value? {
        UserAscends(es, p, m);
        assert !IsLive(es, s, m);
      }
    }

    /** When the scan ends at p with a saved value, the value is live. */
    static lemma ScanEnds(es: seq<Entry>, s: SequenceNumber, saved: Option<UserKey>, value: Bytes, m: nat, p: nat, end: nat)
      requires Sorted(es) && p <= |es|
      requires Scanned(es, s, Value, saved, value, m, if p < |es| then p + 1 else 0, end)
      requires p < |es| ==> es[p].key.user < saved.value
      ensures IsLive(es, s, m) && NewerAfter(es, s, p, m)
    {
      if p < |es| {
        forall j | 0 <= j <= p ensures es[j].key.user <= es[p].key.user { UserAscends(es, j, p); }
      }
    }

    /** FindPrevUserEntry: the last live entry at or before the internal position. */
    method FindPrevUserEntry()
      requires Sorted(iter.entries) && iter.pos <= |iter.entries| && direction.Reverse?
      requires BackwardReady(iter.entries, sequence, End())
      modifies this, iter`pos
      ensures Settled()
      ensures valid ==> at < old(End()) && NoneLive(iter.entries, sequence, at + 1, old(End()))
      ensures !valid ==> NoneLive(iter.entries, sequence, 0, old(End()))
    {
      var es := iter.entries;
      ghost var end := End();
      ghost var m := 0;
      var vtype := Deletion;
      while iter.AtEntry()
        invariant iter.pos <= |es| && direction.Reverse?
        invariant Scanned(es, sequence, vtype, savedKey, savedValue, m, End(), end)
        decreases End()
      {
        var e := es[iter.pos];
        ghost var p := iter.pos;
        if e.key.seqNo <= sequence {
          if vtype.Value? && e.key.user < savedKey.value {
            break;
          }
          ScanMeets(es, sequence, vtype, savedKey, savedValue, m, p, end);
          vtype := e.key.vtype;
          if vtype.Deletion? {
            savedKey := None;
            savedValue := [];
          } else {
            savedKey := Some(e.key.user);
            savedValue := e.value;
            m := p;
          }
        }
        iter.Prev();
      }
      if vtype.Deletion? {
        valid := false;
        savedKey := None;
        savedValue := [];
        direction := Forward;
      } else {
        ScanEnds(es, sequence, savedKey, savedValue, m, iter.pos, end);
        valid := true;
        at := m;
      }
    }

    /** The first half of Prev when the direction changes: back up over the entries of the current key. */
    method LeaveCurrentKey() returns (exhausted: bool)
      requires Settled() && valid && direction.Forward?
      modifies iter`pos, `savedKey
      ensures iter.pos <= |iter.entries|
      ensures exhausted ==> NoneLive(iter.entries, sequence, 0, at)
      ensures !exhausted ==> iter.pos < at && iter.entries[iter.pos].key.user < iter.entries[at].key.user
      ensures !exhausted ==> forall i :: iter.pos < i <= at ==> iter.entries[i].key.user == iter.entries[at].key.user
    {
      var es := iter.entries;
      var current := es[iter.pos].key.user;
      savedKey := Some(current);
      while true
        invariant iter.pos <= at < |es|
        invariant forall i :: iter.pos <= i <= at ==> es[i].key.user == current
        invariant IsLive(es, sequence, at)
        decreases iter.pos
      {
        iter.Prev();
        if !iter.AtEntry() {
          return true;
        }
        UserAscends(es, iter.pos, at);
        if es[iter.pos].key.user < current {
          return false;
        }
      }
    }

    method Prev()
      requires Settled() && valid
      modifies this, iter`pos
      ensures Settled()
      ensures valid <==> old(Cursor()) > 0
      ensures valid ==> Cursor() == old(Cursor()) - 1
    {
      var es := iter.entries;
      ghost var current := at;
      if direction.Forward? {
        var exhausted := LeaveCurrentKey();
        if exhausted {
          RankFlat(es, sequence, 0, current);
          valid := false;
          savedKey := None;
          savedValue := [];
          return;
        }
        direction := Reverse;
      }
      ghost var end := End();
      BackwardFromKey(es, current, end);
      FindPrevUserEntry();
      FoundIsPrevious(es, sequence, current, end, if valid then Some(at) else None);
    }

    /** What the backward scan finds is the live entry before the current one. */
    static lemma FoundIsPrevious(es: seq<Entry>, s: SequenceNumber, current: nat, end: nat, found: Option<nat>)
      requires end <= current < |es| && NoneLive(es, s, end, current)
      requires found.Some? ==> found.value < end && IsLive(es, s, found.value) && NoneLive(es, s, found.value + 1, end)
      requires found.None? ==> NoneLive(es, s, 0, end)
      ensures Rank(es, s, current) == if found.Some? then Rank(es, s, found.value) + 1 else 0
    {
      RankFlat(es, s, end, current);
      if found.Some? {
        RankFlat(es, s, found.value + 1, end);
        LiveAtRank(es, s, found.value);
      } else {
        RankFlat(es, s, 0, end);
      }
    }

    /** The backward scan may start before `end` if everything between there and the current key is older than the
        key or newer than the sequence number. */
    lemma BackwardFromKey(es: seq<Entry>, current: nat, end: nat)
      requires Sorted(es) && end <= current < |es| && IsLive(es, sequence, current)
      requires end > 0 ==> es[end - 1].key.user < es[current].key.user
      requires forall i :: end <= i < current && es[i].key.user < es[current].key.user ==> es[i].key.seqNo > sequence
      ensures BackwardReady(es, sequence, end) && NoneLive(es, sequence, end, current)
    {
      forall i, j | 0 <= i < end <= j < |es| && es[i].key.user == es[j].key.user
        ensures es[j].key.seqNo > sequence
      {
        UserAscends(es, i, end - 1);
        if current <= j { UserAscends(es, current, j); }
      }
      forall i | end <= i < current ensures !IsLive(es, sequence, i) {
        UserAscends(es, i, current);
      }
    }

    /** Seek(target): the cursor is the number of live keys before target. */
    method Seek(target: UserKey)
      requires Settled()
      modifies this, iter`pos
      ensures Settled()
      ensures forall r :: 0 <= r < |LiveList()| ==>
        (iter.entries[LiveList()[r]].key.user < target <==> r < if valid then Cursor() else |LiveList()|)
    {
      var es := iter.entries;
      direction := Forward;
      savedValue := [];
      savedKey := None;
      iter.Seek(SeekKey(target, sequence));
      ghost var p := iter.pos;
      SeekSplits(es, target, sequence);
      if iter.AtEntry() {
        FindNextUserEntry(false);
      } else {
        valid := false;
      }
      ghost var found := if valid then at else |es|;
      assert NoneLive(es, sequence, p, found);
      forall r | 0 <= r < |LiveList()|
        ensures es[LiveList()[r]].key.user < target <==> r < Rank(es, sequence, found)
      {
        RankSplits(es, sequence, found, r);
        var i := LiveList()[r];
        if p <= i { UserAscends(es, p, i); }
      }
    }

    /** Before the seek position all live keys are before the target, from it on none is. */
    lemma SeekSplits(es: seq<Entry>, target: UserKey, s: SequenceNumber)
      requires Sorted(es)
      ensures var p := LowerBound(es, SeekKey(target, s));
        && (forall i :: 0 <= i < p && es[i].key.seqNo <= s ==> es[i].key.user < target)
        && (p < |es| ==> target <= es[p].key.user)
        && ForwardReady(es, s, None, p)
    {
      var p := LowerBound(es, SeekKey(target, s));
      forall i | p <= i < |es| ensures target <= es[i].key.user { UserAscends(es, p, i); }
    }

    method SeekToFirst()
      requires Settled()
      modifies this, iter`pos
      ensures Settled()
      ensures valid <==> |LiveList()| > 0
      ensures valid ==> Cursor() == 0
    {
      var es := iter.entries;
      direction := Forward;
      savedValue := [];
      iter.SeekToFirst();
      if iter.AtEntry() {
        FindNextUserEntry(false);
      } else {
        valid := false;
      }
      ghost var found := if valid then at else |es|;
      assert NoneLive(es, sequence, 0, found);
      RankFlat(es, sequence, 0, found);
      if valid { LiveAtRank(es, sequence, at); }
    }

    method SeekToLast()
      requires Settled()
      modifies this, iter`pos
      ensures Settled()
      ensures valid <==> |LiveList()| > 0
      ensures valid ==> Cursor() == |LiveList()| - 1
    {
      var es := iter.entries;
      direction := Reverse;
      savedValue := [];
      iter.SeekToLast();
      FindPrevUserEntry();
      if valid {
        RankFlat(es, sequence, at + 1, |es|);
        LiveAtRank(es, sequence, at);
      } else {
        RankFlat(es, sequence, 0, |es|);
      }
    }
  }
}
