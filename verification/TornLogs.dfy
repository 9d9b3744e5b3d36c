/** Log files as bytes under crashes: a record that was being appended, and a tail that was never synced
    (db/log_writer.cc, db/log_reader.cc; db/db_impl.cc: RecoverLogFile). */
module TornLogs {
  import opened DbFormat
  import opened Coding
  import opened BatchBytes
  import opened LogFormat
  import opened LogReading
  import opened WriteBatches
  import opened Logs
  import opened DbStates
  import opened DbSteps
  import opened LostTails

  /** User keys are ranks in this model; on disk they are byte strings. */
  datatype KeyCoder = KeyCoder(code: UserKey -> Bytes, decode: Bytes -> UserKey)

  ghost predicate OpReadable(c: KeyCoder, op: WriteOp) {
    c.decode(c.code(op.key)) == op.key && OpFits(OpBytes(c, op))
  }

  function OpBytes(c: KeyCoder, op: WriteOp): BatchOp {
    match op
    case Put(key, value) => PutOp(c.code(key), value)
    case Delete(key) => DeleteOp(c.code(key))
  }

  function OpOf(c: KeyCoder, op: BatchOp): WriteOp {
    match op
    case PutOp(key, value) => Put(c.decode(key), value)
    case DeleteOp(key) => Delete(c.decode(key))
  }

  function OpsBytes(c: KeyCoder, ops: seq<WriteOp>): seq<BatchOp> {
    seq(|ops|, i requires 0 <= i < |ops| => OpBytes(c, ops[i]))
  }

  function OpsRead(c: KeyCoder, ops: seq<BatchOp>): seq<WriteOp> {
    seq(|ops|, i requires 0 <= i < |ops| => OpOf(c, ops[i]))
  }

  // ---- One record ----

  ghost predicate RecordFits(c: KeyCoder, r: LogRecord) {
    r.sequence < TWO_64 && |r.ops| < WORD && forall i :: 0 <= i < |r.ops| ==> OpReadable(c, r.ops[i])
  }

  function RecordBytes(c: KeyCoder, r: LogRecord): Bytes {
    Rep(r.sequence % TWO_64, OpsBytes(c, r.ops))
  }

  /** What RecoverLogFile makes of a record: too short or malformed ones are reported. */
  function RecordOf(c: KeyCoder, record: Bytes): Option<LogRecord> {
    var batch := Iteration(record);
    if |record| < HEADER || batch.error.Some? then None else Some(LogRecord(SequenceOf(record), OpsRead(c, batch.ops)))
  }

  lemma RecordRoundTrip(c: KeyCoder, r: LogRecord)
    requires RecordFits(c, r)
    ensures RecordOf(c, RecordBytes(c, r)) == Some(r)
  {
    var ops := OpsBytes(c, r.ops);
    SmallMod(r.sequence, TWO_64);
    forall op | op in ops ensures OpFits(op) {
      var i :| 0 <= i < |ops| && ops[i] == op;
      assert OpReadable(c, r.ops[i]);
    }
    BatchRoundTrip(r.sequence, ops);
    assert OpsRead(c, ops) == r.ops by {
      assert forall i :: 0 <= i < |r.ops| ==> OpReadable(c, r.ops[i]);
    }
  }

  // ---- A log file ----

  ghost predicate AllFit(c: KeyCoder, records: seq<LogRecord>) {
    forall i :: 0 <= i < |records| ==> RecordFits(c, records[i])
  }

  function Coded(c: KeyCoder, records: seq<LogRecord>): (r: seq<Bytes>)
    ensures |r| == |records|
  {
    seq(|records|, i requires 0 <= i < |records| => RecordBytes(c, records[i]))
  }

  function FileBytes(crc: Checksum, c: KeyCoder, records: seq<LogRecord>): Bytes {
    LogBytes(crc, Coded(c, records))
  }

  /** How many records can be read when the first n bytes of the file are there. */
  function Survivors(crc: Checksum, c: KeyCoder, records: seq<LogRecord>, n: nat): (k: nat)
    ensures k <= |records|
  {
    WholeCount(crc, Coded(c, records), n)
  }

  lemma SurvivorsAre(crc: Checksum, c: KeyCoder, records: seq<LogRecord>, n: nat, i: nat)
    requires i <= |records|
    ensures i <= Survivors(crc, c, records, n) <==> |FileBytes(crc, c, records[..i])| <= n
  {
    assert Coded(c, records)[..i] == Coded(c, records[..i]);
    WholeFits(crc, Coded(c, records), n, i);
  }

  /** Reading a truncated log file, record by record, and decoding the batches: exactly the surviving records, in
      order, and nothing is reported. */
  method ReadRecords(crc: Checksum, c: KeyCoder, file: Bytes, ghost records: seq<LogRecord>) returns (result: seq<LogRecord>, drops: nat)
    requires AllFit(c, records) && file <= FileBytes(crc, c, records)
    ensures result == records[..Survivors(crc, c, records, |file|)] && drops == 0
  {
    var read;
    read, drops := ReadLog(crc, file, Coded(c, records));
    CodedReads(crc, c, records, |file|);
    result := DecodeAll(Decoder(c), read);
    BatchesAre(Decoder(c), read, records, |read|);
  }

  function Decoder(c: KeyCoder): Bytes -> Option<LogRecord> {
    record => RecordOf(c, record)
  }

  /** The batches of the first n records; what is no batch is passed over. */
  function Batches(decode: Bytes -> Option<LogRecord>, read: seq<Bytes>, n: nat): seq<LogRecord>
    requires n <= |read|
  {
    if n == 0 then []
    else Batches(decode, read, n - 1) + (var r := decode(read[n - 1]); if r.Some? then [r.value] else [])
  }

  method DecodeAll(decode: Bytes -> Option<LogRecord>, read: seq<Bytes>) returns (result: seq<LogRecord>)
    ensures result == Batches(decode, read, |read|)
  {
    result := [];
    for i := 0 to |read|
      invariant result == Batches(decode, read, i)
    {
      var r := decode(read[i]);
      result := result + if r.Some? then [r.value] else [];
    }
  }

  lemma {:induction false} BatchesAre(decode: Bytes -> Option<LogRecord>, read: seq<Bytes>, records: seq<LogRecord>, n: nat)
    requires n <= |read| && n <= |records|
    requires forall i {:trigger read[i]} :: 0 <= i < n ==> decode(read[i]) == Some(records[i])
    ensures Batches(decode, read, n) == records[..n]
  {
    if n > 0 {
      BatchesAre(decode, read, records, n - 1);
      TakeOneMore(records, n - 1);
    }
  }

  lemma CodedReads(crc: Checksum, c: KeyCoder, records: seq<LogRecord>, n: nat)
    requires AllFit(c, records)
    ensures var read := Whole(crc, Coded(c, records), n);
      && |read| == Survivors(crc, c, records, n)
      && forall i {:trigger read[i]} :: 0 <= i < |read| ==> Decoder(c)(read[i]) == Some(records[i])
  {
    WholeIsLongest(crc, Coded(c, records), n);
    var read := Whole(crc, Coded(c, records), n);
    forall i | 0 <= i < |read| ensures Decoder(c)(read[i]) == Some(records[i]) {
      RecordRoundTrip(c, records[i]);
    }
  }

  // ---- The disk after a crash ----

  /** When any number of bytes of the current log, and of the record that was being appended, has reached the file, the
      records that are wholly inside them are read, and the database comes back with what they leave of the history. */
  lemma AnyPrefix(s: DbState, logged: Option<seq<WriteOp>>, crc: Checksum, c: KeyCoder, n: nat)
    requires StateOk(s) && HasRoom(s, OpsOf(logged))
    ensures var k := Survivors(crc, c, CurrentLog(s, logged), n);
      var led := CrashLedger(s, logged, k);
      DiskOk(CrashDisk(s, logged, k), s.current, led.history, led.flushed, led.floor, led.exposed)
  {
    CrashDiskOk(s, logged, Survivors(crc, c, CurrentLog(s, logged), n));
  }

  /** A crash in the middle of AddRecord, when any part of its bytes has reached the file and everything before them
      is there: the batch is there as a whole or not at all, and it is there only if all its bytes are. */
  lemma TornAppend(s: DbState, ops: seq<WriteOp>, crc: Checksum, c: KeyCoder, n: nat)
    requires StateOk(s) && HasRoom(s, ops)
    requires |FileBytes(crc, c, s.disk.logs[s.logFileNumber])| <= n <= |FileBytes(crc, c, CurrentLog(s, Some(ops)))|
    ensures var log := CurrentLog(s, Some(ops));
      CrashLedger(s, Some(ops), Survivors(crc, c, log, n)) == if n == |FileBytes(crc, c, log)| then Grow(s, ops) else s.ledger
  {
    var log := CurrentLog(s, Some(ops));
    TornRecord(crc, c, s.disk.logs[s.logFileNumber], log, n);
    LastRecordGone(s, ops, Survivors(crc, c, log, n), n == |FileBytes(crc, c, log)|);
  }

  lemma LastRecordGone(s: DbState, ops: seq<WriteOp>, k: nat, whole: bool)
    requires StateOk(s) && HasRoom(s, ops) && k == if whole then |CurrentLog(s, Some(ops))| else |CurrentLog(s, Some(ops))| - 1
    ensures CrashLedger(s, Some(ops), k) == if whole then Grow(s, ops) else s.ledger
  {
    NothingLost(s, Some(ops));
    if !whole {
      var log, before := CurrentLog(s, Some(ops)), s.disk.logs[s.logFileNumber];
      NothingLost(s, None);
      NothingLogged(s);
      SameEnd(log, before, k, s.ledger.switched);
      assert Cut(Grow(s, ops).history, |s.ledger.history|, |s.ledger.history|) == s.ledger.history;
    }
  }

  lemma {:induction false} SameEnd(a: seq<LogRecord>, b: seq<LogRecord>, n: nat, at: nat)
    requires n <= |a| && n <= |b| && forall i :: 0 <= i < n ==> a[i] == b[i]
    ensures RecordsEnd(a, n, at) == RecordsEnd(b, n, at)
  {
    if n > 0 {
      SameEnd(a, b, n - 1, at);
    }
  }

  lemma TornRecord(crc: Checksum, c: KeyCoder, before: seq<LogRecord>, log: seq<LogRecord>, n: nat)
    requires |log| == |before| + 1 && log[..|before|] == before
    requires |FileBytes(crc, c, before)| <= n <= |FileBytes(crc, c, log)|
    ensures Survivors(crc, c, log, n) == if n == |FileBytes(crc, c, log)| then |log| else |before|
  {
    assert log[..|log|] == log;
    SurvivorsAre(crc, c, log, n, |before|);
    SurvivorsAre(crc, c, log, n, |log|);
  }
}
