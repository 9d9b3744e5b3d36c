/** What a set of log files holds of the history of all writes, and in which order they are replayed
    (db/db_impl.cc: Write, Recover). */
module Logs {
  import opened DbFormat
  import opened WriteBatches

  /** The batch holds the writes of the history that follow the first `at`. */
  ghost predicate NextBatch(batch: LogRecord, h: History, at: nat) {
    && batch.sequence == at + 1 && at + |batch.ops| <= |h|
    && forall i :: 0 <= i < |batch.ops| ==> h[at + i] == Some(OpEntry(batch.ops[i], at + 1 + i))
  }

  /** How many writes have happened after the first n records, when `at` had happened before them. */
  function RecordsEnd(records: seq<LogRecord>, n: nat, at: nat): (end: nat)
    requires n <= |records|
    ensures at <= end
  {
    if n == 0 then at else RecordsEnd(records, n - 1, at) + |records[n - 1].ops|
  }

  /** The first n records hold, without gaps, the writes after the first `at`. */
  ghost predicate RecordsHold(records: seq<LogRecord>, n: nat, h: History, at: nat)
    requires n <= |records|
  {
    n == 0 || (RecordsHold(records, n - 1, h, at) && NextBatch(records[n - 1], h, RecordsEnd(records, n - 1, at)))
  }

  function LogEnd(logs: map<nat, seq<LogRecord>>, number: nat, at: nat): (end: nat)
    ensures at <= end
  {
    if number in logs then RecordsEnd(logs[number], |logs[number]|, at) else at
  }

  ghost predicate LogHolds(logs: map<nat, seq<LogRecord>>, number: nat, h: History, at: nat) {
    number in logs ==> RecordsHold(logs[number], |logs[number]|, h, at)
  }

  /** How many writes have happened after the logs numbered from lo up to (not including) hi. */
  function LogsEnd(logs: map<nat, seq<LogRecord>>, lo: nat, hi: nat, at: nat): (end: nat)
    ensures at <= end
    decreases hi
  {
    if hi <= lo then at else LogEnd(logs, hi - 1, LogsEnd(logs, lo, hi - 1, at))
  }

  /** Those logs hold, in file order and without gaps, the writes after the first `at`. */
  ghost predicate LogsHold(logs: map<nat, seq<LogRecord>>, lo: nat, hi: nat, h: History, at: nat)
    decreases hi
  {
    hi <= lo || (LogsHold(logs, lo, hi - 1, h, at) && LogHolds(logs, hi - 1, h, LogsEnd(logs, lo, hi - 1, at)))
  }

  lemma {:induction false} RecordsSame(a: seq<LogRecord>, b: seq<LogRecord>, n: nat, h: History, g: History, at: nat)
    requires n <= |a| && n <= |b| && forall i :: 0 <= i < n ==> a[i] == b[i]
    requires RecordsHold(a, n, h, at) && h <= g
    ensures RecordsHold(b, n, g, at) && RecordsEnd(b, n, at) == RecordsEnd(a, n, at)
  {
    if n > 0 {
      RecordsSame(a, b, n - 1, h, g, at);
    }
  }

  /** Logs that agree below hi hold the same writes, also of a longer history. */
  lemma {:induction false} LogsSame(a: map<nat, seq<LogRecord>>, b: map<nat, seq<LogRecord>>, lo: nat, hi: nat,
                                    h: History, g: History, at: nat)
    requires forall n :: lo <= n < hi ==> (n in a <==> n in b) && (n in a ==> a[n] == b[n])
    requires LogsHold(a, lo, hi, h, at) && h <= g
    ensures LogsHold(b, lo, hi, g, at) && LogsEnd(b, lo, hi, at) == LogsEnd(a, lo, hi, at)
    decreases hi
  {
    if lo < hi {
      LogsSame(a, b, lo, hi - 1, h, g, at);
      if hi - 1 in a {
        RecordsSame(a[hi - 1], b[hi - 1], |a[hi - 1]|, h, g, LogsEnd(a, lo, hi - 1, at));
      }
    }
  }

  /** Missing log files change nothing. */
  lemma {:induction false} LogsMissing(logs: map<nat, seq<LogRecord>>, lo: nat, mid: nat, hi: nat, h: History, at: nat)
    requires lo <= mid <= hi && forall n :: mid <= n < hi ==> n !in logs
    ensures LogsEnd(logs, lo, hi, at) == LogsEnd(logs, lo, mid, at)
    ensures LogsHold(logs, lo, hi, h, at) <==> LogsHold(logs, lo, mid, h, at)
    decreases hi
  {
    if mid < hi {
      LogsMissing(logs, lo, mid, hi - 1, h, at);
    }
  }

  lemma {:induction false} LogsPrefix(logs: map<nat, seq<LogRecord>>, lo: nat, mid: nat, hi: nat, h: History, at: nat)
    requires lo <= mid <= hi && LogsHold(logs, lo, hi, h, at)
    ensures LogsHold(logs, lo, mid, h, at) && LogsEnd(logs, lo, mid, at) <= LogsEnd(logs, lo, hi, at)
    decreases hi
  {
    if mid < hi {
      LogsPrefix(logs, lo, mid, hi - 1, h, at);
    }
  }

  /** The logs from mid on continue where those before mid end. */
  lemma {:induction false} LogsRest(logs: map<nat, seq<LogRecord>>, lo: nat, mid: nat, hi: nat, h: History, at: nat)
    requires lo <= mid <= hi && LogsHold(logs, lo, hi, h, at)
    ensures LogsHold(logs, mid, hi, h, LogsEnd(logs, lo, mid, at))
    ensures LogsEnd(logs, mid, hi, LogsEnd(logs, lo, mid, at)) == LogsEnd(logs, lo, hi, at)
    decreases hi
  {
    if mid < hi {
      LogsRest(logs, lo, mid, hi - 1, h, at);
    }
  }

  ghost predicate LogsBelow(logs: map<nat, seq<LogRecord>>, hi: nat) {
    forall n :: n in logs ==> n < hi
  }

  /** Nothing is left of the writes after the first n. Their numbers are on record: `last` is the last of them. */
  ghost predicate NothingAfter(h: History, n: nat, last: nat) {
    n <= |h| && (n < |h| ==> |h| == last) && forall i :: n <= i < |h| ==> h[i].None?
  }

  /** The logs from lo on hold exactly the writes after the p-th that are left. */
  ghost predicate LogsCover(logs: map<nat, seq<LogRecord>>, lo: nat, hi: nat, h: History, p: nat, last: nat) {
    LogsBelow(logs, hi) && LogsHold(logs, lo, hi, h, p) && NothingAfter(h, LogsEnd(logs, lo, hi, p), last)
  }

  lemma {:induction false} NextRecord(records: seq<LogRecord>, n: nat, h: History, s: nat, i: nat)
    requires i < n <= |records| && RecordsHold(records, n, h, s)
    ensures NextBatch(records[i], h, RecordsEnd(records, i, s))
  {
    if i < n - 1 {
      NextRecord(records, n - 1, h, s, i);
    }
  }

  // ---- The logs of a directory, in order ----

  ghost predicate Ascending(numbers: seq<nat>) {
    forall i, j :: 0 <= i < j < |numbers| ==> numbers[i] < numbers[j]
  }

  method InsertNumber(numbers: seq<nat>, n: nat) returns (r: seq<nat>)
    requires Ascending(numbers) && n !in numbers
    ensures Ascending(r) && forall m :: m in r <==> m in numbers || m == n
  {
    var i := 0;
    while i < |numbers| && numbers[i] < n
      invariant i <= |numbers| && forall j :: 0 <= j < i ==> numbers[j] < n
    {
      i := i + 1;
    }
    r := numbers[..i] + [n] + numbers[i..];
    forall m ensures m in r <==> m in numbers || m == n {
      assert m in numbers <==> m in numbers[..i] || m in numbers[i..];
    }
  }

  /** The numbers of the log files from minLog on, sorted. */
  method LogsToRecover(logs: map<nat, seq<LogRecord>>, minLog: nat) returns (numbers: seq<nat>)
    ensures Ascending(numbers) && forall n :: n in numbers <==> n in logs && minLog <= n
  {
    numbers := [];
    var todo := logs.Keys;
    while todo != {}
      invariant todo <= logs.Keys && Ascending(numbers)
      invariant forall n :: n in numbers <==> n in logs && n !in todo && minLog <= n
      decreases todo
    {
      var n :| n in todo;
      todo := todo - {n};
      if minLog <= n {
        numbers := InsertNumber(numbers, n);
      }
    }
  }

  /** Where the search for the next log starts: after the (i-1)-th one. */
  function After(numbers: seq<nat>, lo: nat, i: nat): nat
    requires i <= |numbers|
  {
    if i == 0 then lo else numbers[i - 1] + 1
  }

  /** No log lies between two consecutive numbers of the sorted list. */
  lemma NextLog(logs: map<nat, seq<LogRecord>>, numbers: seq<nat>, lo: nat, hi: nat, h: History, p: nat, i: nat)
    requires Ascending(numbers) && (forall n :: n in numbers <==> n in logs && lo <= n) && LogsBelow(logs, hi)
    requires LogsHold(logs, lo, hi, h, p) && i < |numbers|
    ensures numbers[i] in logs
    ensures LogHolds(logs, numbers[i], h, LogsEnd(logs, lo, After(numbers, lo, i), p))
    ensures LogEnd(logs, numbers[i], LogsEnd(logs, lo, After(numbers, lo, i), p)) == LogsEnd(logs, lo, numbers[i] + 1, p)
  {
    var n: nat, from := numbers[i], After(numbers, lo, i);
    assert n in numbers;
    assert i > 0 ==> numbers[i - 1] in numbers && numbers[i - 1] < n;
    forall m | from <= m < n ensures m !in logs {
      if m in numbers {
        NotBetween(numbers, i, m);
      }
    }
    LogsMissing(logs, lo, from, n, h, p);
    LogsPrefix(logs, lo, n + 1, hi, h, p);
  }

  lemma NotBetween(numbers: seq<nat>, i: nat, m: nat)
    requires Ascending(numbers) && i <= |numbers| && m in numbers
    ensures (i > 0 && m <= numbers[i - 1]) || (i < |numbers| && numbers[i] <= m)
  {
    var j :| 0 <= j < |numbers| && numbers[j] == m;
    assert j < i - 1 ==> numbers[j] < numbers[i - 1];
    assert i < j ==> numbers[i] < numbers[j];
  }

  lemma NoMoreLogs(logs: map<nat, seq<LogRecord>>, numbers: seq<nat>, lo: nat, hi: nat, h: History, p: nat)
    requires Ascending(numbers) && (forall n :: n in numbers <==> n in logs && lo <= n) && LogsBelow(logs, hi)
    ensures LogsEnd(logs, lo, After(numbers, lo, |numbers|), p) == LogsEnd(logs, lo, hi, p)
  {
    var from := After(numbers, lo, |numbers|);
    if |numbers| > 0 {
      assert numbers[|numbers| - 1] in numbers;
    }
    forall m | from <= m < hi ensures m !in logs {
      if m in numbers {
        NotBetween(numbers, |numbers|, m);
      }
    }
    if lo <= hi {
      LogsMissing(logs, lo, from, hi, h, p);
    }
  }
}
