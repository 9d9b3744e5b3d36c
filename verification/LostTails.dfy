/** What a crash leaves of the current log and of the history: a process that dies loses nothing that was appended, a
    machine that stops may lose the end of the log that was never synced (db/db_impl.cc: Write, Recover). */
module LostTails {
  import opened DbFormat
  import opened Versions
  import opened Manifests
  import opened WriteBatches
  import opened Logs
  import opened DbStates
  import opened DbInvariants
  import opened DbSteps

  // ---- Histories without their end ----

  /** Of the history the first m writes are left; the numbers up to n are used. */
  function Cut<T>(h: seq<Option<T>>, m: nat, n: nat): seq<Option<T>> {
    (if m <= |h| then h[..m] else h) + seq(if m <= n then n - m else 0, i => None)
  }

  lemma CutIsHistory(h: History, m: nat, n: nat)
    requires IsHistory(h) && m <= n <= |h|
    ensures IsHistory(Cut(h, m, n)) && |Cut(h, m, n)| == n
  {
  }

  lemma CutWhole(h: History)
    ensures Cut(h, |h|, |h|) == h
  {
  }

  /** The writes in a stretch of what is left. */
  lemma CutWrites(h: History, m: nat, n: nat, a: nat, e: Entry)
    requires IsHistory(h) && a <= m <= n <= |h|
    ensures e in Writes(Cut(h, m, n)[a..]) <==> e in Writes(h) && a < e.key.seqNo <= m
  {
    var g := Cut(h, m, n);
    CutIsHistory(h, m, n);
    HistorySet(g, a, n);
    HistoryDistinct(g);
    HistoryDistinct(h);
    assert g[a..] == g[a..n];
    if 0 < e.key.seqNo <= m {
      assert g[e.key.seqNo - 1] == h[e.key.seqNo - 1];
    } else if m < e.key.seqNo <= n {
      assert g[e.key.seqNo - 1] == None;
    }
  }

  /** What a reader can see of b at sequence number u is what it can see of a at s. */
  ghost predicate SeesTheSame(a: set<Entry>, s: SequenceNumber, b: set<Entry>, u: SequenceNumber) {
    forall e :: (e in a && e.key.seqNo <= s) <==> (e in b && e.key.seqNo <= u)
  }

  lemma SameRead(a: set<Entry>, s: SequenceNumber, b: set<Entry>, u: SequenceNumber, k: UserKey)
    requires SeesTheSame(a, s, b, u) && Distinct(b)
    ensures Read(a, k, s) == Read(b, k, u)
  {
    NewestExists(a, k, s);
    if NoneVisible(a, k, s) {
      assert NoneVisible(b, k, u);
      NewestIsNone(b, k, u);
    } else {
      var e := Newest(a, k, s).value;
      assert IsNewest(b, k, u, e);
      NewestIs(b, k, u, e);
    }
  }

  /** The tables stay right when writes that only logs held are lost. */
  lemma HoldsCut(v: Version, h: History, p: nat, floor: nat, exposed: set<UserKey>, m: nat, n: nat)
    requires Holds(v, h, p, floor, exposed) && p <= m <= n <= |h|
    ensures Holds(v, Cut(h, m, n), p, floor, exposed)
  {
    var g := Cut(h, m, n);
    CutIsHistory(h, m, n);
    HoldsFacts(v, h, p, floor, exposed);
    HistoryDistinct(h);
    assert g[..p] == h[..p];
    forall k, s: SequenceNumber {:trigger Read(v.Entries() + Writes(g[p..]), k, s)} | k !in exposed && floor <= s
      ensures Read(v.Entries() + Writes(g[p..]), k, s) == Read(Writes(g), k, s)
    {
      var u := if s <= m then s else m;
      CutSees(v.Entries(), h, p, m, n, s);
      SameRead(v.Entries() + Writes(g[p..]), s, v.Entries() + Writes(h[p..]), u, k);
      SameRead(Writes(g), s, Writes(h), u, k);
    }
  }

  lemma CutSees(es: set<Entry>, h: History, p: nat, m: nat, n: nat, s: SequenceNumber)
    requires IsHistory(h) && p <= m <= n <= |h| && es <= Writes(h[..p])
    ensures var u := if s <= m then s else m;
      && SeesTheSame(es + Writes(Cut(h, m, n)[p..]), s, es + Writes(h[p..]), u)
      && SeesTheSame(Writes(Cut(h, m, n)), s, Writes(h), u)
  {
    var u := if s <= m then s else m;
    var g := Cut(h, m, n);
    HistorySet(h, 0, p);
    HistorySet(h, p, |h|);
    HistoryDistinct(h);
    assert h[..p] == h[0..p] && h[p..] == h[p..|h|] && g[0..] == g;
    forall e ensures (e in es + Writes(g[p..]) && e.key.seqNo <= s) <==> (e in es + Writes(h[p..]) && e.key.seqNo <= u) {
      CutWrites(h, m, n, p, e);
      assert e in es ==> e in Writes(h[..p]);
    }
    forall e ensures (e in Writes(g) && e.key.seqNo <= s) <==> (e in Writes(h) && e.key.seqNo <= u) {
      CutWrites(h, m, n, 0, e);
    }
  }

  // ---- Logs without their end ----

  lemma {:induction false} FirstRecordsHold(records: seq<LogRecord>, k: nat, n: nat, h: History, at: nat)
    requires k <= n <= |records| && RecordsHold(records, n, h, at) && at <= |h|
    ensures RecordsHold(records, k, h, at) && RecordsEnd(records, k, at) <= RecordsEnd(records, n, at) <= |h|
  {
    if k < n {
      FirstRecordsHold(records, k, n - 1, h, at);
    } else if 0 < n {
      FirstRecordsHold(records, n - 1, n - 1, h, at);
    }
  }

  lemma {:induction false} RecordsHoldCut(records: seq<LogRecord>, k: nat, h: History, at: nat, m: nat, n: nat)
    requires k <= |records| && RecordsHold(records, k, h, at) && RecordsEnd(records, k, at) <= m <= |h|
    ensures RecordsHold(records, k, Cut(h, m, n), at)
  {
    if k > 0 {
      RecordsHoldCut(records, k - 1, h, at, m, n);
    }
  }

  lemma {:induction false} LogsHoldCut(logs: map<nat, seq<LogRecord>>, lo: nat, hi: nat, h: History, at: nat, m: nat, n: nat)
    requires LogsHold(logs, lo, hi, h, at) && LogsEnd(logs, lo, hi, at) <= m <= |h|
    ensures LogsHold(logs, lo, hi, Cut(h, m, n), at)
    decreases hi
  {
    if lo < hi {
      LogsHoldCut(logs, lo, hi - 1, h, at, m, n);
      if hi - 1 in logs {
        RecordsHoldCut(logs[hi - 1], |logs[hi - 1]|, h, LogsEnd(logs, lo, hi - 1, at), m, n);
      }
    }
  }

  function Max(a: nat, b: nat): nat {
    if a < b then b else a
  }

  lemma LogsCut(logs: map<nat, seq<LogRecord>>, logNumber: nat, logFileNumber: nat, h: History, p: nat, q: nat, k: nat, last: nat)
    requires LogFilesOk(logs, logNumber, logFileNumber, h, p, q) && p <= q <= |h| && k <= |logs[logFileNumber]| && last <= |h|
    ensures var log := logs[logFileNumber];
      var m := RecordsEnd(log, k, q);
      && q <= m <= |h|
      && LogsCover(logs[logFileNumber := log[..k]], logNumber, logFileNumber + 1, Cut(h, m, Max(m, last)), p, last)
  {
    var log := logs[logFileNumber];
    var m := RecordsEnd(log, k, q);
    var g, cut := Cut(h, m, Max(m, last)), logs[logFileNumber := log[..k]];
    FirstRecordsHold(log, k, |log|, h, q);
    RecordsHoldCut(log, k, h, q, m, Max(m, last));
    RecordsSame(log, log[..k], k, g, g, q);
    LogsHoldCut(logs, logNumber, logFileNumber, h, p, m, Max(m, last));
    LogsSame(logs, cut, logNumber, logFileNumber, g, g, p);
  }

  /** However much of the end of the current log is lost, the writes that are left are recovered: reads of keys that
      no compaction has exposed are those of the history without its end. Sequence numbers that the manifest names
      are not used again. */
  lemma LostTail(disk: Disk, v: Version, h: History, p: nat, q: nat, floor: nat, exposed: set<UserKey>, logNumber: nat,
                 logFileNumber: nat, k: nat)
    requires VersionOk(disk.manifest, disk.tables, v, h, p, floor, exposed) && p <= q <= |h|
    requires LogFilesOk(disk.logs, logNumber, logFileNumber, h, p, q) && MetaOf(disk.manifest).logNumber == Some(logNumber)
    requires k <= |disk.logs[logFileNumber]|
    ensures var m, last := RecordsEnd(disk.logs[logFileNumber], k, q), MetaOf(disk.manifest).lastSequence.value;
      && m <= |h| && Max(m, last) <= |h|
      && DiskOk(disk.(logs := disk.logs[logFileNumber := disk.logs[logFileNumber][..k]]), v, Cut(h, m, Max(m, last)), p, floor,
                exposed)
  {
    var m, last := RecordsEnd(disk.logs[logFileNumber], k, q), MetaOf(disk.manifest).lastSequence.value;
    LogsCut(disk.logs, logNumber, logFileNumber, h, p, q, k, last);
    HoldsCut(v, h, p, floor, exposed, m, Max(m, last));
  }

  // ---- The disk of a crash ----

  ghost predicate HasRoom(s: DbState, ops: seq<WriteOp>) {
    s.logFileNumber in s.disk.logs && s.lastSequence + |ops| < MAX_SEQUENCE_NUMBER
  }

  function OpsOf(logged: Option<seq<WriteOp>>): seq<WriteOp> {
    if logged.Some? then logged.value else []
  }

  /** The current log, with a record whose Write has not returned yet. */
  function CurrentLog(s: DbState, logged: Option<seq<WriteOp>>): seq<LogRecord>
    requires s.logFileNumber in s.disk.logs
  {
    s.disk.logs[s.logFileNumber] + if logged.Some? then [LogRecord(s.lastSequence + 1, logged.value)] else []
  }

  /** The disk when the first k records of that log can be read. */
  function CrashDisk(s: DbState, logged: Option<seq<WriteOp>>, k: nat): Disk
    requires s.logFileNumber in s.disk.logs && k <= |CurrentLog(s, logged)|
  {
    s.disk.(logs := s.disk.logs[s.logFileNumber := CurrentLog(s, logged)[..k]])
  }

  /** How many writes are left, and how many numbers are used. */
  function Survived(s: DbState, logged: Option<seq<WriteOp>>, k: nat): nat
    requires s.logFileNumber in s.disk.logs && k <= |CurrentLog(s, logged)|
  {
    RecordsEnd(CurrentLog(s, logged), k, s.ledger.switched)
  }

  function Numbered(s: DbState, logged: Option<seq<WriteOp>>, k: nat): nat
    requires s.logFileNumber in s.disk.logs && k <= |CurrentLog(s, logged)|
  {
    var last := MetaOf(s.disk.manifest).lastSequence;
    Max(Survived(s, logged, k), if last.Some? then last.value else 0)
  }

  function CrashLedger(s: DbState, logged: Option<seq<WriteOp>>, k: nat): Ledger
    requires s.logFileNumber in s.disk.logs && k <= |CurrentLog(s, logged)|
  {
    s.ledger.(history := Cut(Grow(s, OpsOf(logged)).history, Survived(s, logged, k), Numbered(s, logged, k)))
  }

  lemma CurrentLogs(s: DbState, logged: Option<seq<WriteOp>>)
    requires StateOk(s) && HasRoom(s, OpsOf(logged))
    ensures var g := Grow(s, OpsOf(logged)).history;
      && LogFilesOk(s.disk.logs[s.logFileNumber := CurrentLog(s, logged)], s.logNumber, s.logFileNumber, g, s.ledger.flushed,
                    s.ledger.switched)
      && VersionOk(s.disk.manifest, s.disk.tables, s.current, g, s.ledger.flushed, s.ledger.floor, s.ledger.exposed)
      && MetaOf(s.disk.manifest).logNumber == Some(s.logNumber)
  {
    StateBounds(s);
    assert PartOk(s, LogPart) && PartOk(s, VersionPart) && PartOk(s, CounterPart);
    if logged.Some? {
      AppendedLogs(s, logged.value);
      AppendedVersion(s, logged.value);
    } else {
      NothingLogged(s);
    }
  }

  lemma NothingLogged(s: DbState)
    requires s.logFileNumber in s.disk.logs
    ensures Grow(s, []).history == s.ledger.history && CurrentLog(s, None) == s.disk.logs[s.logFileNumber]
    ensures s.disk.logs[s.logFileNumber := CurrentLog(s, None)] == s.disk.logs
  {
  }

  /** The disk of any crash holds what is left of the history. */
  lemma CrashDiskOk(s: DbState, logged: Option<seq<WriteOp>>, k: nat)
    requires StateOk(s) && HasRoom(s, OpsOf(logged)) && k <= |CurrentLog(s, logged)|
    ensures var led := CrashLedger(s, logged, k);
      && DiskOk(CrashDisk(s, logged, k), s.current, led.history, led.flushed, led.floor, led.exposed)
      && |led.history| <= MAX_SEQUENCE_NUMBER
  {
    var g, logs := Grow(s, OpsOf(logged)).history, s.disk.logs[s.logFileNumber := CurrentLog(s, logged)];
    StateBounds(s);
    CurrentLogs(s, logged);
    LostTail(s.disk.(logs := logs), s.current, g, s.ledger.flushed, s.ledger.switched, s.ledger.floor, s.ledger.exposed,
             s.logNumber, s.logFileNumber, k);
    assert logs[s.logFileNumber := CurrentLog(s, logged)[..k]] == s.disk.logs[s.logFileNumber := CurrentLog(s, logged)[..k]];
  }

  /** When no record is lost, no write is. */
  lemma NothingLost(s: DbState, logged: Option<seq<WriteOp>>)
    requires StateOk(s) && HasRoom(s, OpsOf(logged))
    ensures var k := |CurrentLog(s, logged)|;
      && Survived(s, logged, k) == Numbered(s, logged, k) == |Grow(s, OpsOf(logged)).history|
      && CrashLedger(s, logged, k) == Grow(s, OpsOf(logged))
  {
    CurrentLogs(s, logged);
    CutWhole(Grow(s, OpsOf(logged)).history);
  }
}
