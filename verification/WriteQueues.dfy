/** The queue of concurrent Write calls: one writer leads, logs a group of batches as one record, syncs the log if asked
    to, applies the group to the memtable and reports to all of the group (db/db_impl.cc: DBImpl::Write,
    BuildBatchGroup). Locked regions, and the three stretches of work outside the lock, are single steps. */
module WriteQueues {
  import opened DbFormat
  import opened WriteBatches

  /** A log file: the records appended to it, and how many of them a sync has made durable. */
  datatype LogFile = LogFile(records: seq<LogRecord>, synced: nat)

  /** How far the leader has come with its group; a broken one may have been logged. */
  datatype Stage = Built | Logged | Durable | Applied | Broken(logged: bool)

  /** The writers from the leader, with index `from`, up to index `to`, and the sequence number of their first
      operation. */
  datatype Group = Group(from: nat, to: nat, first: nat)

  /** A group that has left the queue: what its writers were told, how many sequence numbers it used, and if its record
      was appended, in which log and where. */
  datatype Outcome = Outcome(group: Group, ok: bool, used: nat, logged: bool, log: nat, index: nat)

  /** All calls of Write so far, in the order in which they joined the queue, and how many have left it; of those,
      what they returned. writers_ is writers[popped..]. */
  datatype Queue = Queue(writers: seq<Writer>, popped: nat, results: seq<bool>, leading: Option<Group>, stage: Stage,
                         logs: seq<LogFile>, applied: seq<LogRecord>, lastSequence: nat, bgError: bool,
                         outcomes: seq<Outcome>)

  datatype Event =
    | Enqueue(w: Writer)
    /** MakeRoomForWrite, for the writer at the front, starts a new log. */
    | Switch
    /** MakeRoomForWrite fails, or the call only forced a new memtable: the writer at the front leaves alone. */
    | LeaveAlone(ok: bool)
    | Lead(n: nat)
    | Append(ok: bool)
    | Sync(ok: bool)
    | Apply
    | Finish

  function OpsOf(writers: seq<Writer>, g: Group): seq<WriteOp>
    requires g.from <= g.to <= |writers|
  {
    GroupOps(writers[g.from..g.to])
  }

  function RecordOf(writers: seq<Writer>, g: Group): LogRecord
    requires g.from <= g.to <= |writers|
  {
    LogRecord(g.first, OpsOf(writers, g))
  }

  function AppendedLogs(logs: seq<LogFile>, record: LogRecord): seq<LogFile>
    requires logs != []
  {
    var last := |logs| - 1;
    logs[last := logs[last].(records := logs[last].records + [record])]
  }

  function SyncedLogs(logs: seq<LogFile>): seq<LogFile>
    requires logs != []
  {
    var last := |logs| - 1;
    logs[last := logs[last].(synced := |logs[last].records|)]
  }

  /** The same answer n times. */
  function Answers(ok: bool, n: nat): seq<bool> {
    seq(n, _ => ok)
  }

  /** The group's record has been appended. */
  predicate InLog(stage: Stage) {
    stage.Logged? || stage.Durable? || stage.Applied? || (stage.Broken? && stage.logged)
  }

  // ---- The steps ----

  ghost predicate Bounds(q: Queue) {
    && q.logs != [] && q.popped <= |q.writers| && |q.results| == q.popped
    && (q.leading.Some? ==> q.popped == q.leading.value.from < q.leading.value.to <= |q.writers|)
  }

  function Front(q: Queue): Writer
    requires q.popped < |q.writers|
  {
    q.writers[q.popped]
  }

  /** When the event can happen. */
  ghost predicate Enabled(q: Queue, e: Event) {
    && Bounds(q)
    && match e
       case Enqueue(_) => true
       case Switch => q.leading.None? && q.popped < |q.writers|
       case LeaveAlone(ok) =>
         q.leading.None? && q.popped < |q.writers| && (ok ==> Front(q).batch.None? && !q.bgError)
       case Lead(n) => q.leading.None? && q.popped < |q.writers| && CanLead(q.writers[q.popped..], n) && !q.bgError
       case Append(_) => q.leading.Some? && q.stage.Built?
       case Sync(_) => q.leading.Some? && q.stage.Logged? && Front(q).sync
       case Apply => q.leading.Some? && (q.stage.Durable? || (q.stage.Logged? && !Front(q).sync))
       case Finish => q.leading.Some? && (q.stage.Applied? || q.stage.Broken?)
  }

  /** The group of BuildBatchGroup: the longest that the sync and size rules allow. */
  ghost predicate CanLead(waiting: seq<Writer>, n: nat) {
    && 0 < n <= |waiting| && waiting[0].batch.Some? && Groupable(waiting, n)
    && (n < |waiting| ==> !Groupable(waiting, n + 1))
  }

  /** What the event does. The record of a failed sync stays in the log, and all later writes fail; the sequence
      numbers of a group are used up even if it fails. */
  function Step(q: Queue, e: Event): Queue
    requires Enabled(q, e)
  {
    match e
    case Enqueue(w) => q.(writers := q.writers + [w])
    case Switch => q.(logs := q.logs + [LogFile([], 0)])
    case LeaveAlone(ok) =>
      q.(popped := q.popped + 1, results := q.results + Answers(ok, 1),
         outcomes := q.outcomes + [Outcome(Group(q.popped, q.popped + 1, q.lastSequence + 1), ok, 0, false, 0, 0)])
    case Lead(n) => q.(leading := Some(Group(q.popped, q.popped + n, q.lastSequence + 1)), stage := Built)
    case Append(ok) =>
      if ok then q.(logs := AppendedLogs(q.logs, RecordOf(q.writers, q.leading.value)), stage := Logged)
      else q.(stage := Broken(false))
    case Sync(ok) => if ok then q.(logs := SyncedLogs(q.logs), stage := Durable) else q.(stage := Broken(true), bgError := true)
    case Apply => q.(applied := q.applied + [RecordOf(q.writers, q.leading.value)], stage := Applied)
    case Finish =>
      var g := q.leading.value;
      q.(popped := g.to, results := q.results + Answers(q.stage.Applied?, g.to - g.from), leading := None,
         lastSequence := q.lastSequence + |OpsOf(q.writers, g)|, outcomes := q.outcomes + [OutcomeOf(q)])
  }

  /** The record, if the group has one, is the last of the current log. */
  function OutcomeOf(q: Queue): Outcome
    requires q.logs != [] && q.leading.Some? && q.leading.value.from <= q.leading.value.to <= |q.writers|
  {
    var g, records := q.leading.value, q.logs[|q.logs| - 1].records;
    Outcome(g, q.stage.Applied?, |OpsOf(q.writers, g)|, InLog(q.stage), |q.logs| - 1, if records == [] then 0 else |records| - 1)
  }

  // ---- What is true in every state ----

  ghost predicate GroupIn(writers: seq<Writer>, g: Group) {
    g.from < g.to <= |writers|
  }

  /** The records of the first n groups that were logged. */
  ghost function RecordsOf(writers: seq<Writer>, outcomes: seq<Outcome>, n: nat): seq<LogRecord>
    requires n <= |outcomes| && forall i :: 0 <= i < |outcomes| ==> GroupIn(writers, outcomes[i].group)
  {
    if n == 0 then []
    else
      RecordsOf(writers, outcomes, n - 1)
      + if outcomes[n - 1].logged then [RecordOf(writers, outcomes[n - 1].group)] else []
  }

  /** The records of the first n groups whose writers were told OK. */
  ghost function OkRecords(writers: seq<Writer>, outcomes: seq<Outcome>, n: nat): seq<LogRecord>
    requires n <= |outcomes| && forall i :: 0 <= i < |outcomes| ==> GroupIn(writers, outcomes[i].group)
  {
    if n == 0 then []
    else
      OkRecords(writers, outcomes, n - 1)
      + if outcomes[n - 1].ok && outcomes[n - 1].logged then [RecordOf(writers, outcomes[n - 1].group)] else []
  }

  /** All records of the first n logs. */
  function RecordsIn(logs: seq<LogFile>, n: nat): seq<LogRecord>
    requires n <= |logs|
  {
    if n == 0 then [] else RecordsIn(logs, n - 1) + logs[n - 1].records
  }

  function UsedBy(outcomes: seq<Outcome>, n: nat): nat
    requires n <= |outcomes|
  {
    if n == 0 then 0 else UsedBy(outcomes, n - 1) + outcomes[n - 1].used
  }

  function EndOf(outcomes: seq<Outcome>, n: nat): nat
    requires n <= |outcomes|
  {
    if n == 0 then 0 else outcomes[n - 1].group.to
  }

  /** What the outcome claims: the groups follow one another in the queue; every writer of the group got its answer;
      sequence numbers follow one another; OK means logged, or nothing to log; OK for a sync write means durable. */
  ghost predicate OutcomeOk(q: Queue, start: nat, i: nat)
    requires i < |q.outcomes|
  {
    var o := q.outcomes[i];
    && GroupIn(q.writers, o.group) && o.group.from == EndOf(q.outcomes, i) && o.group.to <= |q.results|
    && (forall j :: o.group.from <= j < o.group.to ==> q.results[j] == o.ok)
    && o.group.first == start + UsedBy(q.outcomes, i) + 1
    && (o.logged ==> InPlace(q.logs, o.log, o.index, RecordOf(q.writers, o.group)) && o.used == |OpsOf(q.writers, o.group)|)
    && (o.ok && !o.logged ==> o.used == 0 && o.group.to == o.group.from + 1 && q.writers[o.group.from].batch.None?)
    && (o.ok && o.logged && (exists j :: o.group.from <= j < o.group.to && q.writers[j].sync) ==> o.index < q.logs[o.log].synced)
  }

  ghost predicate InPlace(logs: seq<LogFile>, log: nat, index: nat, record: LogRecord) {
    log < |logs| && index < |logs[log].records| && logs[log].records[index] == record
  }

  ghost predicate LeadingOk(q: Queue)
    requires Bounds(q)
  {
    q.leading.Some? ==>
      var g, last := q.leading.value, q.logs[|q.logs| - 1];
      && g.first == q.lastSequence + 1
      && (forall j :: g.from <= j < g.to && q.writers[j].sync ==> q.writers[g.from].sync)
      && (InLog(q.stage) ==> last.records != [] && last.records[|last.records| - 1] == RecordOf(q.writers, g))
      && (q.stage.Durable? || (q.stage.Applied? && q.writers[g.from].sync) ==> last.synced == |last.records|)
  }

  datatype Part = Limits | Outcomes | Leading | Records | Applications | Sequence

  ghost predicate PartOk(q: Queue, start: nat, part: Part) {
    match part
    case Limits =>
      && Bounds(q) && q.popped == EndOf(q.outcomes, |q.outcomes|)
      && forall l :: 0 <= l < |q.logs| ==> q.logs[l].synced <= |q.logs[l].records|
    case Outcomes => forall i {:trigger OutcomeOk(q, start, i)} :: 0 <= i < |q.outcomes| ==> OutcomeOk(q, start, i)
    case Leading => Bounds(q) && LeadingOk(q)
    case Records =>
      && Bounds(q) && (forall i :: 0 <= i < |q.outcomes| ==> GroupIn(q.writers, q.outcomes[i].group))
      && RecordsIn(q.logs, |q.logs|)
         == RecordsOf(q.writers, q.outcomes, |q.outcomes|)
            + if q.leading.Some? && InLog(q.stage) then [RecordOf(q.writers, q.leading.value)] else []
    case Applications =>
      && Bounds(q) && (forall i :: 0 <= i < |q.outcomes| ==> GroupIn(q.writers, q.outcomes[i].group))
      && q.applied
         == OkRecords(q.writers, q.outcomes, |q.outcomes|)
            + if q.leading.Some? && q.stage.Applied? then [RecordOf(q.writers, q.leading.value)] else []
    case Sequence => q.lastSequence == start + UsedBy(q.outcomes, |q.outcomes|)
  }

  /** The invariant of the queue; `start` is the last sequence number before the first write. */
  ghost predicate QueueOk(q: Queue, start: nat) {
    forall part {:trigger PartOk(q, start, part)} :: PartOk(q, start, part)
  }

  // ---- Every step keeps it ----

  lemma SliceKept<T>(s: seq<T>, more: seq<T>, from: nat, to: nat)
    requires from <= to <= |s|
    ensures (s + more)[from..to] == s[from..to]
  {
  }

  lemma {:induction false} RecordsKept(writers: seq<Writer>, w: Writer, outcomes: seq<Outcome>, n: nat)
    requires n <= |outcomes| && forall i :: 0 <= i < |outcomes| ==> GroupIn(writers, outcomes[i].group)
    ensures forall i :: 0 <= i < |outcomes| ==> GroupIn(writers + [w], outcomes[i].group)
    ensures RecordsOf(writers + [w], outcomes, n) == RecordsOf(writers, outcomes, n)
    ensures OkRecords(writers + [w], outcomes, n) == OkRecords(writers, outcomes, n)
  {
    if n > 0 {
      RecordsKept(writers, w, outcomes, n - 1);
      SliceKept(writers, [w], outcomes[n - 1].group.from, outcomes[n - 1].group.to);
    }
  }

  lemma EnqueueKeeps(q: Queue, start: nat, w: Writer)
    requires QueueOk(q, start) && Bounds(q)
    ensures QueueOk(Step(q, Enqueue(w)), start)
  {
    var t := Step(q, Enqueue(w));
    assert PartOk(q, start, Records);
    forall part ensures PartOk(t, start, part) {
      assert PartOk(q, start, part);
      match part
      case Limits =>
      case Outcomes =>
        forall i: nat | i < |t.outcomes| ensures OutcomeOk(t, start, i) {
          assert OutcomeOk(q, start, i);
          SliceKept(q.writers, [w], q.outcomes[i].group.from, q.outcomes[i].group.to);
        }
      case Leading => if q.leading.Some? { SliceKept(q.writers, [w], q.leading.value.from, q.leading.value.to); }
      case Records =>
        RecordsKept(q.writers, w, q.outcomes, |q.outcomes|);
        if q.leading.Some? { SliceKept(q.writers, [w], q.leading.value.from, q.leading.value.to); }
      case Applications =>
        RecordsKept(q.writers, w, q.outcomes, |q.outcomes|);
        if q.leading.Some? { SliceKept(q.writers, [w], q.leading.value.from, q.leading.value.to); }
      case Sequence =>
    }
  }

  /** Logs only gain records, and what is durable stays so. */
  ghost predicate LogsGrow(a: seq<LogFile>, b: seq<LogFile>) {
    && |a| <= |b|
    && forall l :: 0 <= l < |a| ==>
         && a[l].synced <= b[l].synced && |a[l].records| <= |b[l].records|
         && forall k :: 0 <= k < |a[l].records| ==> b[l].records[k] == a[l].records[k]
  }

  ghost predicate Extends<T>(a: seq<T>, b: seq<T>) {
    |a| <= |b| && forall i :: 0 <= i < |a| ==> b[i] == a[i]
  }

  lemma {:induction false} UsedKept(a: seq<Outcome>, b: seq<Outcome>, n: nat)
    requires Extends(a, b) && n <= |a|
    ensures UsedBy(b, n) == UsedBy(a, n)
  {
    if n > 0 {
      UsedKept(a, b, n - 1);
    }
  }

  lemma OutcomeKept(q: Queue, t: Queue, start: nat, i: nat)
    requires i < |q.outcomes| && OutcomeOk(q, start, i)
    requires t.writers == q.writers && Extends(q.outcomes, t.outcomes) && Extends(q.results, t.results) && LogsGrow(q.logs, t.logs)
    ensures OutcomeOk(t, start, i)
  {
    UsedKept(q.outcomes, t.outcomes, i);
  }

  lemma OutcomesKept(q: Queue, t: Queue, start: nat)
    requires PartOk(q, start, Outcomes) && t.writers == q.writers && t.outcomes == q.outcomes && t.results == q.results
    requires LogsGrow(q.logs, t.logs)
    ensures PartOk(t, start, Outcomes)
  {
    forall i: nat | i < |t.outcomes| ensures OutcomeOk(t, start, i) {
      OutcomeKept(q, t, start, i);
    }
  }

  lemma {:induction false} RecordsInSame(a: seq<LogFile>, b: seq<LogFile>, n: nat)
    requires n <= |a| && n <= |b| && forall l :: 0 <= l < n ==> a[l].records == b[l].records
    ensures RecordsIn(a, n) == RecordsIn(b, n)
  {
    if n > 0 {
      RecordsInSame(a, b, n - 1);
    }
  }

  lemma RecordsInAppended(logs: seq<LogFile>, record: LogRecord)
    requires logs != []
    ensures RecordsIn(AppendedLogs(logs, record), |logs|) == RecordsIn(logs, |logs|) + [record]
  {
    var more, n := AppendedLogs(logs, record), |logs| - 1;
    RecordsInSame(logs, more, n);
    LastRecords(logs, n);
    LastRecords(more, n);
    Regroup(RecordsIn(logs, n), logs[n].records, [record]);
  }

  lemma LastRecords(logs: seq<LogFile>, n: nat)
    requires n + 1 == |logs|
    ensures RecordsIn(logs, |logs|) == RecordsIn(logs, n) + logs[n].records
  {
  }

  lemma SwitchKeeps(q: Queue, start: nat)
    requires QueueOk(q, start) && Enabled(q, Switch)
    ensures QueueOk(Step(q, Switch), start)
  {
    var t := Step(q, Switch);
    forall part ensures PartOk(t, start, part) {
      assert PartOk(q, start, part);
      match part
      case Limits =>
      case Outcomes => OutcomesKept(q, t, start);
      case Leading =>
      case Records =>
        RecordsInSame(q.logs, t.logs, |q.logs|);
        assert RecordsIn(t.logs, |t.logs|) == RecordsIn(t.logs, |q.logs|) + [];
      case Applications =>
      case Sequence =>
    }
  }

  lemma LeadKeeps(q: Queue, start: nat, n: nat)
    requires QueueOk(q, start) && Enabled(q, Lead(n))
    ensures QueueOk(Step(q, Lead(n)), start)
  {
    var t := Step(q, Lead(n));
    forall part ensures PartOk(t, start, part) {
      assert PartOk(q, start, part);
      match part
      case Limits =>
      case Outcomes => OutcomesKept(q, t, start);
      case Leading => LeaderSyncs(q.writers, q.popped, n);
      case Records =>
      case Applications =>
      case Sequence =>
    }
  }

  /** A sync write never follows a leader that does not sync. */
  lemma LeaderSyncs(writers: seq<Writer>, from: nat, n: nat)
    requires from <= |writers| && CanLead(writers[from..], n)
    ensures forall j :: from <= j < from + n && writers[j].sync ==> writers[from].sync
  {
    var waiting := writers[from..];
    forall j | from <= j < from + n && writers[j].sync ensures writers[from].sync {
      assert waiting[j - from] == writers[j] && waiting[0] == writers[from];
    }
  }

  lemma AppendKeeps(q: Queue, start: nat, ok: bool)
    requires QueueOk(q, start) && Enabled(q, Append(ok))
    ensures QueueOk(Step(q, Append(ok)), start)
  {
    var t := Step(q, Append(ok));
    forall part ensures PartOk(t, start, part) {
      assert PartOk(q, start, part);
      match part
      case Limits =>
      case Outcomes => OutcomesKept(q, t, start);
      case Leading =>
      case Records =>
        RecordsInAppended(q.logs, RecordOf(q.writers, q.leading.value));
        assert RecordsOf(q.writers, q.outcomes, |q.outcomes|) + [] == RecordsOf(q.writers, q.outcomes, |q.outcomes|);
      case Applications =>
      case Sequence =>
    }
  }

  lemma SyncKeeps(q: Queue, start: nat, ok: bool)
    requires QueueOk(q, start) && Enabled(q, Sync(ok))
    ensures QueueOk(Step(q, Sync(ok)), start)
  {
    var t := Step(q, Sync(ok));
    assert PartOk(q, start, Limits);
    forall part ensures PartOk(t, start, part) {
      assert PartOk(q, start, part);
      match part
      case Limits =>
      case Outcomes => OutcomesKept(q, t, start);
      case Leading =>
      case Records => RecordsInSame(q.logs, t.logs, |q.logs|);
      case Applications =>
      case Sequence =>
    }
  }

  lemma ApplyKeeps(q: Queue, start: nat)
    requires QueueOk(q, start) && Enabled(q, Apply)
    ensures QueueOk(Step(q, Apply), start)
  {
    var t := Step(q, Apply);
    forall part ensures PartOk(t, start, part) {
      assert PartOk(q, start, part);
      match part
      case Limits =>
      case Outcomes => OutcomesKept(q, t, start);
      case Leading =>
      case Records =>
      case Applications =>
      case Sequence =>
    }
  }

  /** One more group that has left the queue. */
  lemma {:induction false} OneMoreOutcome(writers: seq<Writer>, outcomes: seq<Outcome>, o: Outcome, n: nat)
    requires n <= |outcomes| && GroupIn(writers, o.group) && forall i :: 0 <= i < |outcomes| ==> GroupIn(writers, outcomes[i].group)
    ensures forall i :: 0 <= i < |outcomes + [o]| ==> GroupIn(writers, (outcomes + [o])[i].group)
    ensures RecordsOf(writers, outcomes + [o], n) == RecordsOf(writers, outcomes, n)
    ensures OkRecords(writers, outcomes + [o], n) == OkRecords(writers, outcomes, n)
    ensures UsedBy(outcomes + [o], n) == UsedBy(outcomes, n)
  {
    if n > 0 {
      OneMoreOutcome(writers, outcomes, o, n - 1);
    }
  }

  lemma LeaveAloneKeeps(q: Queue, start: nat, ok: bool)
    requires QueueOk(q, start) && Enabled(q, LeaveAlone(ok))
    ensures QueueOk(Step(q, LeaveAlone(ok)), start)
  {
    var t := Step(q, LeaveAlone(ok));
    assert PartOk(q, start, Limits) && PartOk(q, start, Records) && PartOk(q, start, Sequence);
    OneMoreOutcome(q.writers, q.outcomes, t.outcomes[|q.outcomes|], |q.outcomes|);
    forall part ensures PartOk(t, start, part) {
      assert PartOk(q, start, part);
      if part.Outcomes? {
        LeaveAloneOutcomes(q, start, ok);
      }
    }
  }

  lemma LeaveAloneOutcomes(q: Queue, start: nat, ok: bool)
    requires PartOk(q, start, Limits) && PartOk(q, start, Outcomes) && PartOk(q, start, Sequence) && Enabled(q, LeaveAlone(ok))
    ensures PartOk(Step(q, LeaveAlone(ok)), start, Outcomes)
  {
    var t, n := Step(q, LeaveAlone(ok)), |q.outcomes|;
    forall i: nat | i < |t.outcomes| ensures OutcomeOk(t, start, i) {
      if i < n {
        assert OutcomeOk(q, start, i);
        OutcomeKept(q, t, start, i);
      } else {
        UsedKept(q.outcomes, t.outcomes, n);
      }
    }
  }

  lemma FinishKeeps(q: Queue, start: nat)
    requires QueueOk(q, start) && Enabled(q, Finish)
    ensures QueueOk(Step(q, Finish), start)
  {
    var t := Step(q, Finish);
    var n := |q.outcomes|;
    assert PartOk(q, start, Limits) && PartOk(q, start, Records);
    OneMoreOutcome(q.writers, q.outcomes, t.outcomes[n], n);
    forall part ensures PartOk(t, start, part) {
      assert PartOk(q, start, part);
      match part
      case Limits =>
      case Outcomes => FinishOutcomes(q, start);
      case Leading =>
      case Records =>
      case Applications =>
      case Sequence =>
    }
  }

  lemma FinishOutcomes(q: Queue, start: nat)
    requires QueueOk(q, start) && Enabled(q, Finish)
    ensures PartOk(Step(q, Finish), start, Outcomes)
  {
    var t := Step(q, Finish);
    assert PartOk(q, start, Outcomes);
    forall i: nat | i < |t.outcomes| ensures OutcomeOk(t, start, i) {
      if i < |q.outcomes| {
        OutcomeKept(q, t, start, i);
      } else {
        NewOutcome(q, start);
      }
    }
  }

  lemma NewOutcome(q: Queue, start: nat)
    requires QueueOk(q, start) && Enabled(q, Finish)
    ensures OutcomeOk(Step(q, Finish), start, |q.outcomes|)
  {
    var t := Step(q, Finish);
    assert PartOk(q, start, Limits) && PartOk(q, start, Sequence) && PartOk(q, start, Leading);
    UsedKept(q.outcomes, t.outcomes, |q.outcomes|);
  }

  // ---- Whole runs ----

  /** A queue before the first write, with a new log. */
  function NewQueue(start: nat): Queue {
    Queue([], 0, [], None, Built, [LogFile([], 0)], [], start, false, [])
  }

  lemma NewQueueOk(start: nat)
    ensures QueueOk(NewQueue(start), start)
  {
    var q := NewQueue(start);
    assert RecordsIn(q.logs, 1) == RecordsIn(q.logs, 0) + [];
    forall part ensures PartOk(q, start, part) {
      match part
      case Limits =>
      case Outcomes =>
      case Leading =>
      case Records =>
      case Applications =>
      case Sequence =>
    }
  }

  lemma StepKeeps(q: Queue, start: nat, e: Event)
    requires QueueOk(q, start) && Enabled(q, e)
    ensures QueueOk(Step(q, e), start)
  {
    match e
    case Enqueue(w) => EnqueueKeeps(q, start, w);
    case Switch => SwitchKeeps(q, start);
    case LeaveAlone(ok) => LeaveAloneKeeps(q, start, ok);
    case Lead(n) => LeadKeeps(q, start, n);
    case Append(ok) => AppendKeeps(q, start, ok);
    case Sync(ok) => SyncKeeps(q, start, ok);
    case Apply => ApplyKeeps(q, start);
    case Finish => FinishKeeps(q, start);
  }

  ghost predicate IsQueueRun(states: seq<Queue>, events: seq<Event>, start: nat) {
    && |states| == |events| + 1 && states[0] == NewQueue(start)
    && forall i {:trigger events[i]} :: 0 <= i < |events| ==> Enabled(states[i], events[i]) && states[i + 1] == Step(states[i], events[i])
  }

  /** The invariant holds in every state of every run of concurrent writers. */
  lemma {:induction false} QueueRunIsSafe(states: seq<Queue>, events: seq<Event>, start: nat, n: nat)
    requires IsQueueRun(states, events, start) && n <= |events|
    ensures QueueOk(states[n], start)
  {
    if n == 0 {
      NewQueueOk(start);
    } else {
      QueueRunIsSafe(states, events, start, n - 1);
      StepKeeps(states[n - 1], start, events[n - 1]);
    }
  }

  // ---- What the invariant means to a writer ----

  lemma {:induction false} GroupOpsConcat(a: seq<Writer>, b: seq<Writer>)
    ensures GroupOps(a + b) == GroupOps(a) + GroupOps(b)
    decreases |b|
  {
    if b == [] {
      assert a + b == a;
    } else {
      var n := |b| - 1;
      assert (a + b)[..|a + b| - 1] == a + b[..n];
      GroupOpsConcat(a, b[..n]);
    }
  }

  function BatchOf(w: Writer): seq<WriteOp> {
    if w.batch.Some? then w.batch.value else []
  }

  lemma OneWriter(w: Writer)
    ensures GroupOps([w]) == BatchOf(w)
  {
    assert [w][..0] == [];
  }

  lemma SplitAt<T>(s: seq<T>, from: nat, j: nat, to: nat)
    requires from <= j < to <= |s|
    ensures s[from..to] == s[from..j] + ([s[j]] + s[j + 1..to])
  {
  }

  lemma MiddlePart<T>(a: seq<T>, b: seq<T>, c: seq<T>)
    ensures (a + (b + c))[|a|..|a| + |b|] == b
  {
  }

  /** Where the batch of a writer is in the operations of its group. */
  lemma BatchInGroup(writers: seq<Writer>, g: Group, j: nat)
    requires g.from <= j < g.to <= |writers|
    ensures var before := |GroupOps(writers[g.from..j])|;
      && before + |BatchOf(writers[j])| <= |OpsOf(writers, g)|
      && OpsOf(writers, g)[before..before + |BatchOf(writers[j])|] == BatchOf(writers[j])
  {
    var a, b, c := writers[g.from..j], [writers[j]], writers[j + 1..g.to];
    SplitAt(writers, g.from, j, g.to);
    GroupOpsConcat(a, b + c);
    GroupOpsConcat(b, c);
    OneWriter(writers[j]);
    MiddlePart(GroupOps(a), BatchOf(writers[j]), GroupOps(c));
  }

  /** Among the first n groups, the one that the j-th writer was in. */
  function GroupAmong(outcomes: seq<Outcome>, j: nat, n: nat): nat
    requires n <= |outcomes|
  {
    if n == 0 then 0 else if outcomes[n - 1].group.from <= j then n - 1 else GroupAmong(outcomes, j, n - 1)
  }

  function GroupOf(q: Queue, j: nat): nat {
    GroupAmong(q.outcomes, j, |q.outcomes|)
  }

  lemma {:induction false} InItsGroup(q: Queue, start: nat, j: nat, n: nat)
    requires PartOk(q, start, Outcomes) && n <= |q.outcomes| && j < EndOf(q.outcomes, n)
    ensures var i := GroupAmong(q.outcomes, j, n);
      i < n && OutcomeOk(q, start, i) && q.outcomes[i].group.from <= j < q.outcomes[i].group.to
    decreases n
  {
    assert OutcomeOk(q, start, n - 1);
    if q.outcomes[n - 1].group.from > j {
      InItsGroup(q, start, j, n - 1);
    }
  }

  /** The sequence number of the first operation of the j-th writer: the batches before it in its group come first. */
  function FirstOf(q: Queue, j: nat): nat
    requires GroupOf(q, j) < |q.outcomes| && q.outcomes[GroupOf(q, j)].group.from <= j <= |q.writers|
  {
    var g := q.outcomes[GroupOf(q, j)].group;
    g.first + |GroupOps(q.writers[g.from..j])|
  }

  /** The j-th writer has left the queue. */
  ghost predicate HasLeft(q: Queue, j: nat) {
    j < q.popped && j < |q.results| && j < |q.writers|
  }

  lemma LeftInGroup(q: Queue, start: nat, j: nat)
    requires QueueOk(q, start) && HasLeft(q, j)
    ensures var i := GroupOf(q, j);
      i < |q.outcomes| && OutcomeOk(q, start, i) && q.outcomes[i].group.from <= j < q.outcomes[i].group.to
  {
    assert PartOk(q, start, Limits) && PartOk(q, start, Outcomes);
    InItsGroup(q, start, j, |q.outcomes|);
  }

  /** The record at that place holds the batch of the writer, and `first` is the sequence number of its first operation. */
  ghost predicate Holds(logs: seq<LogFile>, log: nat, index: nat, w: Writer, first: nat) {
    && log < |logs| && index < |logs[log].records|
    && var r := logs[log].records[index];
       && r.sequence <= first && first - r.sequence + |BatchOf(w)| <= |r.ops|
       && r.ops[first - r.sequence..first - r.sequence + |BatchOf(w)|] == BatchOf(w)
  }

  /** A Write with a batch that returned OK is in the log under its sequence numbers, and if it asked for a sync, in the
      part that has been synced. */
  lemma OkIsLogged(q: Queue, start: nat, j: nat)
    requires QueueOk(q, start) && HasLeft(q, j) && q.results[j] && q.writers[j].batch.Some?
    ensures GroupOf(q, j) < |q.outcomes| && q.outcomes[GroupOf(q, j)].group.from <= j
    ensures var o := q.outcomes[GroupOf(q, j)];
      && Holds(q.logs, o.log, o.index, q.writers[j], FirstOf(q, j))
      && (q.writers[j].sync ==> o.index < q.logs[o.log].synced)
  {
    LeftInGroup(q, start, j);
    BatchInGroup(q.writers, q.outcomes[GroupOf(q, j)].group, j);
  }

  lemma {:induction false} UsedGrows(outcomes: seq<Outcome>, n: nat, m: nat)
    requires n <= m <= |outcomes|
    ensures UsedBy(outcomes, n) <= UsedBy(outcomes, m)
    decreases m
  {
    if n < m {
      UsedGrows(outcomes, n, m - 1);
    }
  }

  /** The sequence numbers of a group lie before those of every later group, and all lie up to the last sequence
      number. */
  lemma SequencesAreDisjoint(q: Queue, start: nat, i: nat, k: nat)
    requires QueueOk(q, start) && i < k <= |q.outcomes|
    ensures start < q.outcomes[i].group.first
    ensures q.outcomes[i].group.first + q.outcomes[i].used <= (if k < |q.outcomes| then q.outcomes[k].group.first else q.lastSequence + 1)
  {
    assert PartOk(q, start, Outcomes) && PartOk(q, start, Sequence);
    assert OutcomeOk(q, start, i) && (k < |q.outcomes| ==> OutcomeOk(q, start, k));
    UsedGrows(q.outcomes, i + 1, k);
  }

  /** The sequence numbers of a Write that returned OK lie before those of every later writer, and all lie up to the
      last sequence number: no two writers share any. */
  lemma OkNumbersAreOwn(q: Queue, start: nat, j: nat, k: nat)
    requires QueueOk(q, start) && HasLeft(q, j) && q.results[j]
    ensures GroupOf(q, j) < |q.outcomes| && q.outcomes[GroupOf(q, j)].group.from <= j
    ensures start < FirstOf(q, j) && FirstOf(q, j) + |BatchOf(q.writers[j])| <= q.lastSequence + 1
    ensures j < k && HasLeft(q, k) ==>
      && GroupOf(q, k) < |q.outcomes| && q.outcomes[GroupOf(q, k)].group.from <= k
      && FirstOf(q, j) + |BatchOf(q.writers[j])| <= FirstOf(q, k)
  {
    LeftInGroup(q, start, j);
    var i := GroupOf(q, j);
    var g := q.outcomes[i].group;
    WithinGroup(q, start, j);
    SequencesAreDisjoint(q, start, i, |q.outcomes|);
    if j < k && HasLeft(q, k) {
      LeftInGroup(q, start, k);
      if GroupOf(q, k) == i {
        BatchInGroup(q.writers, Group(g.from, k, g.first), j);
      } else {
        LaterGroup(q, start, j, k);
        SequencesAreDisjoint(q, start, i, GroupOf(q, k));
      }
    }
  }

  /** The operations of a writer that got OK are among those that its group has numbered. */
  lemma WithinGroup(q: Queue, start: nat, j: nat)
    requires QueueOk(q, start) && HasLeft(q, j) && q.results[j]
    ensures var i := GroupOf(q, j);
      && i < |q.outcomes| && q.outcomes[i].group.from <= j
      && FirstOf(q, j) + |BatchOf(q.writers[j])| <= q.outcomes[i].group.first + q.outcomes[i].used
  {
    LeftInGroup(q, start, j);
    var o := q.outcomes[GroupOf(q, j)];
    BatchInGroup(q.writers, o.group, j);
    if !o.logged {
      assert o.group.from == j && q.writers[j..j] == [];
    }
  }

  lemma {:induction false} EndsGrow(q: Queue, start: nat, n: nat, m: nat)
    requires PartOk(q, start, Outcomes) && n <= m <= |q.outcomes|
    ensures EndOf(q.outcomes, n) <= EndOf(q.outcomes, m)
    decreases m
  {
    if n < m {
      EndsGrow(q, start, n, m - 1);
      assert OutcomeOk(q, start, m - 1);
    }
  }

  lemma LaterGroup(q: Queue, start: nat, j: nat, k: nat)
    requires QueueOk(q, start) && HasLeft(q, j) && HasLeft(q, k) && j < k && GroupOf(q, j) != GroupOf(q, k)
    ensures GroupOf(q, j) < GroupOf(q, k)
  {
    LeftInGroup(q, start, j);
    LeftInGroup(q, start, k);
    assert PartOk(q, start, Outcomes);
    if GroupOf(q, k) < GroupOf(q, j) {
      EndsGrow(q, start, GroupOf(q, k) + 1, GroupOf(q, j));
    }
  }

  /** The operations of a list of records, with their sequence numbers. */
  function EntriesOf(records: seq<LogRecord>): seq<Entry> {
    if records == [] then []
    else EntriesOf(records[..|records| - 1]) + OpEntries(records[|records| - 1].ops, records[|records| - 1].sequence)
  }

  lemma OpEntriesConcat(a: seq<WriteOp>, b: seq<WriteOp>, s: nat)
    ensures OpEntries(a + b, s) == OpEntries(a, s) + OpEntries(b, s + |a|)
  {
  }

  lemma EntriesSnoc(records: seq<LogRecord>, r: LogRecord)
    ensures EntriesOf(records + [r]) == EntriesOf(records) + OpEntries(r.ops, r.sequence)
  {
    assert (records + [r])[..|records|] == records;
  }

  /** Every Write so far returned OK. */
  ghost predicate AllWereOk(q: Queue) {
    forall i :: 0 <= i < |q.outcomes| ==> q.outcomes[i].ok
  }

  /** The records hold the batches of the first `end` writers, one after the other, with consecutive sequence numbers. */
  ghost predicate InOrder(writers: seq<Writer>, records: seq<LogRecord>, end: nat, used: nat, start: nat) {
    && end <= |writers| && EntriesOf(records) == OpEntries(GroupOps(writers[..end]), start + 1)
    && used == |GroupOps(writers[..end])|
  }

  /** If every Write so far returned OK, the logs hold exactly the batches of these writers, one after the other in the
      order in which they joined the queue, with consecutive sequence numbers. */
  lemma {:induction false} LoggedInQueueOrder(q: Queue, start: nat, n: nat)
    requires QueueOk(q, start) && AllWereOk(q) && n <= |q.outcomes|
    ensures forall i :: 0 <= i < |q.outcomes| ==> GroupIn(q.writers, q.outcomes[i].group)
    ensures InOrder(q.writers, RecordsOf(q.writers, q.outcomes, n), EndOf(q.outcomes, n), UsedBy(q.outcomes, n), start)
    decreases n
  {
    assert PartOk(q, start, Outcomes) && PartOk(q, start, Records);
    if n == 0 {
      assert q.writers[..0] == [];
    } else {
      LoggedInQueueOrder(q, start, n - 1);
      OneMoreLogged(q, start, n, RecordsOf(q.writers, q.outcomes, n - 1));
      NothingMore(RecordsOf(q.writers, q.outcomes, n - 1));
    }
  }

  lemma OneMoreLogged(q: Queue, start: nat, n: nat, records: seq<LogRecord>)
    requires PartOk(q, start, Outcomes) && 0 < n <= |q.outcomes| && q.outcomes[n - 1].ok
    requires InOrder(q.writers, records, EndOf(q.outcomes, n - 1), UsedBy(q.outcomes, n - 1), start)
    ensures GroupIn(q.writers, q.outcomes[n - 1].group)
    ensures var o := q.outcomes[n - 1];
      InOrder(q.writers, if o.logged then records + [RecordOf(q.writers, o.group)] else records, o.group.to, UsedBy(q.outcomes, n), start)
  {
    assert OutcomeOk(q, start, n - 1);
    var o := q.outcomes[n - 1];
    if o.logged {
      LoggedStep(q.writers, records, o.group, UsedBy(q.outcomes, n - 1), start);
    } else {
      SilentStep(q.writers, records, o.group.from, UsedBy(q.outcomes, n - 1), start);
    }
  }

  lemma LoggedStep(writers: seq<Writer>, records: seq<LogRecord>, g: Group, used: nat, start: nat)
    requires InOrder(writers, records, g.from, used, start) && GroupIn(writers, g) && g.first == start + used + 1
    ensures InOrder(writers, records + [RecordOf(writers, g)], g.to, used + |OpsOf(writers, g)|, start)
  {
    var before, group := writers[..g.from], writers[g.from..g.to];
    assert writers[..g.to] == before + group;
    MoreEntries(records, before, group, start + 1, RecordOf(writers, g));
  }

  lemma SilentStep(writers: seq<Writer>, records: seq<LogRecord>, from: nat, used: nat, start: nat)
    requires InOrder(writers, records, from, used, start) && from < |writers| && writers[from].batch.None?
    ensures InOrder(writers, records, from + 1, used, start)
  {
    var before := writers[..from];
    assert writers[..from + 1] == before + [writers[from]];
    OneWriter(writers[from]);
    GroupOpsConcat(before, [writers[from]]);
    assert GroupOps(before) + [] == GroupOps(before);
  }

  lemma MoreEntries(records: seq<LogRecord>, before: seq<Writer>, group: seq<Writer>, first: nat, r: LogRecord)
    requires EntriesOf(records) == OpEntries(GroupOps(before), first)
    requires r == LogRecord(first + |GroupOps(before)|, GroupOps(group))
    ensures EntriesOf(records + [r]) == OpEntries(GroupOps(before + group), first)
    ensures |GroupOps(before + group)| == |GroupOps(before)| + |r.ops|
  {
    GroupOpsConcat(before, group);
    OpEntriesConcat(GroupOps(before), GroupOps(group), first);
    EntriesSnoc(records, r);
  }

  lemma NothingMore(records: seq<LogRecord>)
    ensures records + [] == records
  {
  }

  lemma {:induction false} AllLoggedAreOk(writers: seq<Writer>, outcomes: seq<Outcome>, n: nat)
    requires n <= |outcomes| && forall i :: 0 <= i < |outcomes| ==> GroupIn(writers, outcomes[i].group)
    requires forall i :: 0 <= i < |outcomes| ==> outcomes[i].ok
    ensures OkRecords(writers, outcomes, n) == RecordsOf(writers, outcomes, n)
  {
    if n > 0 {
      AllLoggedAreOk(writers, outcomes, n - 1);
    }
  }

  /** Group commit has the effect of the single writes, one after the other: as long as all is well and no group is
      under way, the memtable has been given, and the logs hold, the operations of all finished writers in queue order. */
  lemma AsOneByOne(q: Queue, start: nat)
    requires QueueOk(q, start) && AllWereOk(q) && q.leading.None?
    ensures q.popped <= |q.writers|
    ensures EntriesOf(q.applied) == OpEntries(GroupOps(q.writers[..q.popped]), start + 1)
    ensures EntriesOf(RecordsIn(q.logs, |q.logs|)) == OpEntries(GroupOps(q.writers[..q.popped]), start + 1)
    ensures q.lastSequence == start + |GroupOps(q.writers[..q.popped])|
  {
    assert PartOk(q, start, Limits) && PartOk(q, start, Records) && PartOk(q, start, Applications) && PartOk(q, start, Sequence);
    var n := |q.outcomes|;
    LoggedInQueueOrder(q, start, n);
    AllLoggedAreOk(q.writers, q.outcomes, n);
    assert RecordsOf(q.writers, q.outcomes, n) + [] == RecordsOf(q.writers, q.outcomes, n);
  }

  lemma SuffixPart<T>(s: seq<T>, from: nat, n: nat)
    requires from + n <= |s|
    ensures s[from..][..n] == s[from..from + n]
  {
  }

  // ---- The code ----

  /** The part of DBImpl that Write works on. */
  class WriteThread {
    /** writers_. */
    var waiting: seq<Writer>
    /** The current log file. */
    var log: LogFile
    var mem: seq<LogRecord>
    var lastSequence: nat
    var bgError: bool
    ghost var q: Queue
    ghost const start: nat

    ghost predicate Valid()
      reads this
    {
      && QueueOk(q, start) && Bounds(q)
      && waiting == q.writers[q.popped..] && log == q.logs[|q.logs| - 1] && mem == q.applied
      && lastSequence == q.lastSequence && bgError == q.bgError
    }

    constructor (lastSequence: nat)
      ensures Valid() && q == NewQueue(lastSequence) && start == lastSequence
    {
      waiting, log, mem, bgError := [], LogFile([], 0), [], false;
      this.lastSequence, q, start := lastSequence, NewQueue(lastSequence), lastSequence;
      NewQueueOk(lastSequence);
    }

    /** writers_.push_back. */
    method Join(w: Writer)
      requires Valid()
      modifies this
      ensures Valid() && q == Step(old(q), Enqueue(w))
    {
      EnqueueKeeps(q, start, w);
      waiting := waiting + [w];
      q := Step(q, Enqueue(w));
    }

    /** MakeRoomForWrite starts a new log. */
    method SwitchLog()
      requires Valid() && q.leading.None? && waiting != []
      modifies this
      ensures Valid() && q == Step(old(q), Switch)
    {
      SwitchKeeps(q, start);
      log := LogFile([], 0);
      q := Step(q, Switch);
    }

    /** The writer at the front leaves without a group: there is an error, or it has no batch. */
    method Leave() returns (ok: bool)
      requires Valid() && q.leading.None? && waiting != [] && (bgError || waiting[0].batch.None?)
      modifies this
      ensures Valid() && ok == !old(bgError) && q == Step(old(q), LeaveAlone(ok))
    {
      ok := !bgError;
      assert waiting[0] == Front(q);
      LeaveAloneKeeps(q, start, ok);
      waiting := waiting[1..];
      q := Step(q, LeaveAlone(ok));
    }

    /** BuildBatchGroup and SetSequence: the record to be logged, and the last writer of the group. */
    method BuildGroup() returns (record: LogRecord, n: nat)
      requires Valid() && q.leading.None? && waiting != [] && waiting[0].batch.Some? && !bgError
      modifies this
      ensures Valid() && Enabled(old(q), Lead(n)) && q == Step(old(q), Lead(n))
      ensures record == RecordOf(q.writers, q.leading.value) && waiting == old(waiting)
    {
      var ops;
      ops, n := BuildBatchGroup(waiting);
      record := LogRecord(lastSequence + 1, ops);
      LeadKeeps(q, start, n);
      SuffixPart(q.writers, q.popped, n);
      q := Step(q, Lead(n));
    }

    /** log_->AddRecord, without the lock; whether the file system takes the record is not up to the caller. */
    method AddRecord(record: LogRecord, ok: bool)
      requires Valid() && q.leading.Some? && q.stage.Built? && record == RecordOf(q.writers, q.leading.value)
      modifies this
      ensures Valid() && q == Step(old(q), Append(ok))
    {
      AppendKeeps(q, start, ok);
      if ok {
        log := log.(records := log.records + [record]);
      }
      q := Step(q, Append(ok));
    }

    /** logfile_->Sync for a leader that asks for it; a failure is recorded as a background error. */
    method SyncLog(ok: bool)
      requires Valid() && q.leading.Some? && q.stage.Logged? && waiting != [] && waiting[0].sync
      modifies this
      ensures Valid() && q == Step(old(q), Event.Sync(ok))
    {
      assert waiting[0] == Front(q);
      SyncKeeps(q, start, ok);
      if ok {
        log := log.(synced := |log.records|);
      } else {
        bgError := true;
      }
      q := Step(q, Event.Sync(ok));
    }

    /** InsertInto. */
    method InsertIntoMemtable(record: LogRecord)
      requires Valid() && Enabled(q, Apply) && record == RecordOf(q.writers, q.leading.value)
      modifies this
      ensures Valid() && q == Step(old(q), Apply)
    {
      ApplyKeeps(q, start);
      mem := mem + [record];
      q := Step(q, Apply);
    }

    /** SetLastSequence, and the loop that pops the group. */
    method PopGroup(record: LogRecord, n: nat)
      requires Valid() && Enabled(q, Finish) && record == RecordOf(q.writers, q.leading.value)
      requires n == q.leading.value.to - q.leading.value.from
      modifies this
      ensures Valid() && q == Step(old(q), Finish)
    {
      FinishKeeps(q, start);
      lastSequence := lastSequence + |record.ops|;
      ghost var all := waiting;
      var i := 0;
      while i < n
        invariant i <= n <= |all| && waiting == all[i..]
        invariant q == old(q) && log == old(log) && mem == old(mem) && bgError == old(bgError)
        invariant lastSequence == old(lastSequence) + |record.ops|
      {
        waiting := waiting[1..];
        i := i + 1;
      }
      q := Step(q, Finish);
    }

    /** The stretch of Write without the lock: log the record of the group, sync if the leader asks for it, apply it. */
    method LogGroup(record: LogRecord, logOk: bool, syncOk: bool) returns (ok: bool)
      requires Valid() && q.leading.Some? && q.stage.Built? && record == RecordOf(q.writers, q.leading.value)
      modifies this
      ensures Valid() && Enabled(q, Finish) && q.leading == old(q.leading) && q.writers == old(q.writers)
      ensures q.popped == old(q.popped) && q.results == old(q.results)
      ensures ok == q.stage.Applied? && ok == (logOk && (Front(q).sync ==> syncOk))
    {
      var sync := waiting[0].sync;
      assert waiting[0] == Front(q);
      AddRecord(record, logOk);
      ok := logOk;
      if ok && sync {
        SyncLog(syncOk);
        ok := syncOk;
      }
      if ok {
        InsertIntoMemtable(record);
      }
    }

    /** Write from the moment when its writer is at the front and MakeRoomForWrite has succeeded: build the group, log
        it, sync if the leader asks for it, apply it, and let the group go. */
    method Commit(logOk: bool, syncOk: bool) returns (ok: bool)
      requires Valid() && q.leading.None? && waiting != [] && waiting[0].batch.Some? && !bgError
      modifies this
      ensures Valid() && q.leading.None? && old(q.popped) < q.popped
      ensures ok == (logOk && (old(waiting)[0].sync ==> syncOk))
      ensures forall j :: old(q.popped) <= j < q.popped && j < |q.results| ==> q.results[j] == ok
    {
      assert waiting[0] == Front(q);
      var record, n := BuildGroup();
      ok := LogGroup(record, logOk, syncOk);
      PopGroup(record, n);
    }
  }
}
