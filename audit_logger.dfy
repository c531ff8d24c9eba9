/**
 * The client-side audit trail (src/lib/utils/auditLogger.ts): the
 * field-level change set computed for each audit entry, and the in-memory
 * queue that batches audit records before they are written to the
 * `audit_logs` table.
 *
 * The queue's behaviour is given twice: as pure transitions on a
 * `QueueState` value (ProcessBatchSpec, LogSpec, TickSpec, FlushSpec), about
 * which the lemmas below are proved, and as the class `AuditQueue`, whose
 * methods update its fields step by step and are proved to follow those
 * transitions. The insert into `audit_logs` is an oracle (`InsertOracle`)
 * and the 30-second timer is the `pending` flag plus an explicit `Tick`.
 */
module AuditLogger {
  import opened Wrappers
  import opened Types

  datatype EntityType = MemberEntity | EventEntity | UserEntity | SettingsEntity | AttendanceEntity

  datatype AuditAction = Create | Update | Delete | Import | Restore

  /** An audit entry as handed over by a producer. */
  datatype AuditEntry = AuditEntry(
    entityType: EntityType,
    entityId: string,
    action: AuditAction,
    before: Option<Record>,
    after: Option<Record>,
    reason: Option<string>,
    tags: Option<seq<string>>)

  /** One field of a change set; `None` stands for `undefined`. */
  datatype Change = Change(before: Option<Json>, after: Option<Json>)

  type ChangeDiff = map<string, Change>

  /** The actor fields of a record; resolving them is outside this model. */
  datatype UserContext = UserContext(userId: Option<string>, userEmail: string, userRole: string)

  /** What `getUserContext` does: resolve the actor, or throw (with a message when it throws an Error). */
  datatype ContextLookup = Resolved(context: UserContext) | LookupThrew(message: Option<string>)

  /** A row of `audit_logs` as built on the client (the database assigns the id). */
  datatype AuditLogRecord = AuditLogRecord(
    entityType: EntityType,
    entityId: string,
    action: AuditAction,
    changeDiff: Option<ChangeDiff>,
    userId: Option<string>,
    userEmail: string,
    userRole: string,
    timestamp: string,
    ipAddress: Option<string>,
    userAgent: Option<string>,
    reason: Option<string>,
    tags: seq<string>,
    isAnonymized: bool,
    createdAt: string)

  datatype BatchConfig = BatchConfig(batchSize: nat, batchInterval: nat, maxRetries: nat, fallbackToRealtime: bool)

  /** `AUDIT_BATCH_CONFIG` */
  const AuditBatchConfig := BatchConfig(50, 30000, 3, true)

  const BatchSize: nat := AuditBatchConfig.batchSize

  // ---------------------------------------------------------------------
  // Change sets
  // ---------------------------------------------------------------------

  /** `record[key]`: `None` when the key is absent. */
  function Lookup(r: Record, key: string): Option<Json> {
    if key in r then Some(r[key]) else None
  }

  /** `JSON.stringify(v)`, with `ser` the serialisation of a present value; `undefined` stays `undefined`. */
  function Serialized(ser: Json -> string, v: Option<Json>): Option<string> {
    match v
    case None => None
    case Some(x) => Some(ser(x))
  }

  /** `Object.keys(diff).length > 0 ? diff : null` */
  function NonEmpty(d: ChangeDiff): Option<ChangeDiff> {
    if |d| > 0 then Some(d) else None
  }

  /** The change set of `calculateDiff`, as a specification. */
  function Diff(before: Option<Record>, after: Option<Record>, action: AuditAction, ser: Json -> string): Option<ChangeDiff> {
    if action == Create && after.Some? then
      NonEmpty(map key | key in after.value :: Change(None, Some(after.value[key])))
    else if action == Delete && before.Some? then
      NonEmpty(map key | key in before.value :: Change(Some(before.value[key]), None))
    else if before.None? || after.None? then
      None
    else
      var b, a := before.value, after.value;
      NonEmpty(map key | key in b.Keys + a.Keys && Serialized(ser, Lookup(b, key)) != Serialized(ser, Lookup(a, key))
                 :: Change(Lookup(b, key), Lookup(a, key)))
  }

  /** The create rule's loop: every field of `after`, with no prior value. */
  method CaptureAfter(a: Record) returns (diff: ChangeDiff)
    ensures diff == map key | key in a :: Change(None, Some(a[key]))
  {
    diff := map[];
    var keys := a.Keys;
    while keys != {}
      invariant keys <= a.Keys
      invariant diff.Keys == a.Keys - keys
      invariant forall key :: key in diff ==> diff[key] == Change(None, Some(a[key]))
      decreases keys
    {
      var key :| key in keys;
      diff := diff[key := Change(None, Some(a[key]))];
      keys := keys - {key};
    }
  }

  /** The delete rule's loop: every field of `before`, with no new value. */
  method CaptureBefore(b: Record) returns (diff: ChangeDiff)
    ensures diff == map key | key in b :: Change(Some(b[key]), None)
  {
    diff := map[];
    var keys := b.Keys;
    while keys != {}
      invariant keys <= b.Keys
      invariant diff.Keys == b.Keys - keys
      invariant forall key :: key in diff ==> diff[key] == Change(Some(b[key]), None)
      decreases keys
    {
      var key :| key in keys;
      diff := diff[key := Change(Some(b[key]), None)];
      keys := keys - {key};
    }
  }

  /** The update rule's loop over the union of both key sets. */
  method CompareKeys(b: Record, a: Record, ser: Json -> string) returns (diff: ChangeDiff)
    ensures diff == map key | key in b.Keys + a.Keys && Serialized(ser, Lookup(b, key)) != Serialized(ser, Lookup(a, key))
                      :: Change(Lookup(b, key), Lookup(a, key))
  {
    diff := map[];
    var allKeys := b.Keys + a.Keys;
    var keys := allKeys;
    while keys != {}
      invariant keys <= allKeys
      invariant forall key :: key in diff <==>
        key in allKeys - keys && Serialized(ser, Lookup(b, key)) != Serialized(ser, Lookup(a, key))
      invariant forall key :: key in diff ==> diff[key] == Change(Lookup(b, key), Lookup(a, key))
      decreases keys
    {
      var key :| key in keys;
      if Serialized(ser, Lookup(b, key)) != Serialized(ser, Lookup(a, key)) {
        diff := diff[key := Change(Lookup(b, key), Lookup(a, key))];
      }
      keys := keys - {key};
    }
  }

  /** `calculateDiff` */
  method CalculateDiff(before: Option<Record>, after: Option<Record>, action: AuditAction, ser: Json -> string)
    returns (r: Option<ChangeDiff>)
    ensures r == Diff(before, after, action, ser)
  {
    if action == Create && after.Some? {
      var diff := CaptureAfter(after.value);
      return NonEmpty(diff);
    }
    if action == Delete && before.Some? {
      var diff := CaptureBefore(before.value);
      return NonEmpty(diff);
    }
    if before.None? || after.None? {
      return None;
    }
    var diff := CompareKeys(before.value, after.value, ser);
    return NonEmpty(diff);
  }

  /** A create with a present `after` captures every field of `after`, each with no prior value. */
  lemma DiffOfCreate(before: Option<Record>, a: Record, ser: Json -> string)
    ensures var d := Diff(before, Some(a), Create, ser);
      && (d.Some? <==> |a| > 0)
      && (d.Some? ==> d.value.Keys == a.Keys && forall key :: key in a ==> d.value[key] == Change(None, Some(a[key])))
  {
    var m := map key | key in a :: Change(None, Some(a[key]));
    assert m.Keys == a.Keys;
  }

  /** A delete with a present `before` captures every field of `before`, each with no new value. */
  lemma DiffOfDelete(b: Record, after: Option<Record>, ser: Json -> string)
    ensures var d := Diff(Some(b), after, Delete, ser);
      && (d.Some? <==> |b| > 0)
      && (d.Some? ==> d.value.Keys == b.Keys && forall key :: key in b ==> d.value[key] == Change(Some(b[key]), None))
  {
    var m := map key | key in b :: Change(Some(b[key]), None);
    assert m.Keys == b.Keys;
  }

  /**
   * Under the update rule a key is in the change set exactly when the
   * serialisations of its two sides differ, and it carries both sides.
   */
  lemma DiffOfUpdate(b: Record, a: Record, action: AuditAction, ser: Json -> string, key: string)
    requires action != Create && action != Delete
    ensures var d := Diff(Some(b), Some(a), action, ser);
      && ((d.Some? && key in d.value) <==>
            (key in b.Keys + a.Keys && Serialized(ser, Lookup(b, key)) != Serialized(ser, Lookup(a, key))))
      && (d.Some? && key in d.value ==> d.value[key] == Change(Lookup(b, key), Lookup(a, key)))
  {
    var m := map k | k in b.Keys + a.Keys && Serialized(ser, Lookup(b, k)) != Serialized(ser, Lookup(a, k))
               :: Change(Lookup(b, k), Lookup(a, k));
    assert Diff(Some(b), Some(a), action, ser) == NonEmpty(m);
    if key in m {
      assert key in m.Keys && |m.Keys| == |m|;
    }
  }

  /** With an injective serialisation, the update rule keeps exactly the keys whose values differ. */
  lemma DiffOfUpdateInjective(b: Record, a: Record, ser: Json -> string, key: string)
    requires forall x, y :: ser(x) == ser(y) ==> x == y
    ensures var d := Diff(Some(b), Some(a), Update, ser);
      (d.Some? && key in d.value) <==> Lookup(b, key) != Lookup(a, key)
  {
    DiffOfUpdate(b, a, Update, ser, key);
  }

  /** Comparing a state with itself yields no change set. */
  lemma DiffOfSelf(x: Record, ser: Json -> string)
    ensures Diff(Some(x), Some(x), Update, ser) == None
  {
    var m := map key | key in x.Keys + x.Keys && Serialized(ser, Lookup(x, key)) != Serialized(ser, Lookup(x, key))
               :: Change(Lookup(x, key), Lookup(x, key));
    assert m == map[];
  }

  /** A case that reaches the update rule with a side missing yields no change set. */
  lemma DiffWithMissingSide(before: Option<Record>, after: Option<Record>, action: AuditAction, ser: Json -> string)
    requires !(action == Create && after.Some?) && !(action == Delete && before.Some?)
    requires before.None? || after.None?
    ensures Diff(before, after, action, ser) == None
  {
  }

  /** The change set is never an empty map: no change is `None`. */
  lemma DiffNeverEmpty(before: Option<Record>, after: Option<Record>, action: AuditAction, ser: Json -> string)
    ensures Diff(before, after, action, ser) != Some(map[])
  {
  }

  // ---------------------------------------------------------------------
  // Records
  // ---------------------------------------------------------------------

  /** The record `logAuditChange` builds from an entry, its actor, its change set and the current time. */
  function BuildRecord(entry: AuditEntry, context: UserContext, diff: Option<ChangeDiff>, now: string): (r: AuditLogRecord)
  {
    AuditLogRecord(
      entry.entityType, entry.entityId, entry.action, diff,
      context.userId, context.userEmail, context.userRole,
      now, None, None,
      if entry.reason == Some("") then None else entry.reason,
      entry.tags.GetOr([]),
      false, now)
  }

  /** The defaults of a new record: not anonymised, no address or agent, empty reason as null, no tags as []. */
  lemma BuildRecordDefaults(entry: AuditEntry, context: UserContext, diff: Option<ChangeDiff>, now: string)
    ensures var r := BuildRecord(entry, context, diff, now);
      && !r.isAnonymized && r.ipAddress == None && r.userAgent == None
      && r.timestamp == now && r.createdAt == now && r.changeDiff == diff
      && (entry.reason.None? || entry.reason == Some("") <==> r.reason.None?)
      && (entry.tags.None? ==> r.tags == [])
      && (entry.tags.Some? ==> r.tags == entry.tags.value)
  {
  }

  // ---------------------------------------------------------------------
  // The batching queue, as transitions on values
  // ---------------------------------------------------------------------

  datatype InsertOutcome = Inserted | InsertError | InsertThrew

  /**
   * The answers of `audit_logs` inserts: `batch` for the multi-row insert,
   * `single(i)` for the individual insert of the i-th record of the batch.
   */
  datatype InsertOracle = InsertOracle(batch: InsertOutcome, single: nat -> InsertOutcome)

  /** The queue, whether a timer is armed, and the records written to `audit_logs`. */
  datatype QueueState = QueueState(queue: seq<AuditLogRecord>, pending: bool, stored: seq<AuditLogRecord>)

  function Min(x: nat, y: nat): nat {
    if x <= y then x else y
  }

  /** The records of `batch` whose individual insert succeeded, in batch order. */
  function Written(batch: seq<AuditLogRecord>, single: nat -> InsertOutcome): seq<AuditLogRecord>
  {
    if batch == [] then []
    else
      var last := |batch| - 1;
      Written(batch[..last], single) + (if single(last) == Inserted then [batch[last]] else [])
  }

  /** `processBatch` */
  function ProcessBatchSpec(s: QueueState, fallback: bool, oracle: InsertOracle): QueueState {
    if |s.queue| == 0 then s
    else
      var n := Min(BatchSize, |s.queue|);
      var batch, rest := s.queue[..n], s.queue[n..];
      match oracle.batch
      case Inserted => s.(queue := rest, stored := s.stored + batch)
      case InsertError =>
        if fallback then s.(queue := rest, stored := s.stored + Written(batch, oracle.single))
        else s.(queue := batch + (batch + rest))
      case InsertThrew => s.(queue := batch + rest)
  }

  /** `logAuditChange` after the record is built: push, then flush at the threshold or re-arm the timer. */
  function LogSpec(s: QueueState, record: AuditLogRecord, fallback: bool, oracle: InsertOracle): QueueState {
    var s1 := s.(queue := s.queue + [record]);
    if |s1.queue| >= BatchSize then ProcessBatchSpec(s1, fallback, oracle)
    else s1.(pending := true)
  }

  /** The timer firing: process a batch and re-arm while records remain. Nothing happens without an armed timer. */
  function TickSpec(s: QueueState, fallback: bool, oracle: InsertOracle): QueueState {
    if !s.pending then s
    else
      var s1 := ProcessBatchSpec(s.(pending := false), fallback, oracle);
      s1.(pending := |s1.queue| > 0)
  }

  /** `flushAuditQueue`: cancel the timer, then process one batch. */
  function FlushSpec(s: QueueState, fallback: bool, oracle: InsertOracle): QueueState {
    ProcessBatchSpec(s.(pending := false), fallback, oracle)
  }

  /** Every queued record has a timer that will process it. */
  predicate Armed(s: QueueState) {
    |s.queue| > 0 ==> s.pending
  }

  /** The number of indices below `n` whose individual insert succeeded. */
  function Successes(n: nat, single: nat -> InsertOutcome): (k: nat)
    ensures k <= n
  {
    if n == 0 then 0 else Successes(n - 1, single) + (if single(n - 1) == Inserted then 1 else 0)
  }

  /** Exactly one record is written per successful individual insert: every failed one is dropped. */
  lemma {:induction false} WrittenCountsSuccesses(batch: seq<AuditLogRecord>, single: nat -> InsertOutcome)
    ensures |Written(batch, single)| == Successes(|batch|, single)
    decreases |batch|
  {
    if batch != [] {
      WrittenCountsSuccesses(batch[..|batch| - 1], single);
    }
  }

  /** Every written record comes from an index of the batch whose own insert succeeded. */
  lemma {:induction false} WrittenOnlySucceeded(batch: seq<AuditLogRecord>, single: nat -> InsertOutcome, x: AuditLogRecord)
    requires x in Written(batch, single)
    ensures exists i :: 0 <= i < |batch| && batch[i] == x && single(i) == Inserted
    decreases |batch|
  {
    var last := |batch| - 1;
    var w := Written(batch[..last], single);
    if x in w {
      WrittenOnlySucceeded(batch[..last], single, x);
      var i :| 0 <= i < last && batch[..last][i] == x && single(i) == Inserted;
      assert batch[i] == x;
    } else {
      assert single(last) == Inserted && x == batch[last];
    }
  }

  /** Individual writes never produce more than the batch, nor a record it did not hold. */
  lemma {:induction false} WrittenWithinBatch(batch: seq<AuditLogRecord>, single: nat -> InsertOutcome)
    ensures multiset(Written(batch, single)) <= multiset(batch)
    decreases |batch|
  {
    if batch != [] {
      var last := |batch| - 1;
      WrittenWithinBatch(batch[..last], single);
      assert batch == batch[..last] + [batch[last]];
      assert multiset(batch) == multiset(batch[..last]) + multiset{batch[last]};
    }
  }

  /** Every record whose individual insert succeeded is written. */
  lemma {:induction false} WrittenKeepsSucceeded(batch: seq<AuditLogRecord>, single: nat -> InsertOutcome, i: nat)
    requires i < |batch| && single(i) == Inserted
    ensures batch[i] in Written(batch, single)
    decreases |batch|
  {
    var last := |batch| - 1;
    if i < last {
      WrittenKeepsSucceeded(batch[..last], single, i);
    }
  }

  /** When every individual insert succeeds, the whole batch is written in order. */
  lemma {:induction false} WrittenAll(batch: seq<AuditLogRecord>, single: nat -> InsertOutcome)
    requires forall i :: 0 <= i < |batch| ==> single(i) == Inserted
    ensures Written(batch, single) == batch
    decreases |batch|
  {
    if batch != [] {
      var last := |batch| - 1;
      WrittenAll(batch[..last], single);
      assert batch == batch[..last] + [batch[last]];
    }
  }

  /** An empty queue is left as it is. */
  lemma ProcessBatchOnEmptyQueue(s: QueueState, fallback: bool, oracle: InsertOracle)
    requires s.queue == []
    ensures ProcessBatchSpec(s, fallback, oracle) == s
  {
  }

  /** A successful batch writes the first min(50, length) records in order and keeps the rest in order. */
  lemma ProcessBatchWritesHead(s: QueueState, fallback: bool, oracle: InsertOracle)
    requires s.queue != [] && oracle.batch == Inserted
    ensures var n := Min(BatchSize, |s.queue|);
      var t := ProcessBatchSpec(s, fallback, oracle);
      && t.stored == s.stored + s.queue[..n]
      && t.queue == s.queue[n..]
      && t.stored + t.queue == s.stored + s.queue
      && t.pending == s.pending
  {
    var n := Min(BatchSize, |s.queue|);
    assert s.queue[..n] + s.queue[n..] == s.queue;
  }

  /**
   * With fallback on, a failed batch is written record by record: the batch
   * leaves the queue, and only the records whose own insert succeeded reach
   * `audit_logs`; the others are dropped.
   */
  lemma FallbackWritesIndividually(s: QueueState, oracle: InsertOracle)
    requires s.queue != [] && oracle.batch == InsertError
    ensures var n := Min(BatchSize, |s.queue|);
      var t := ProcessBatchSpec(s, true, oracle);
      && t.queue == s.queue[n..]
      && t.stored[..|s.stored|] == s.stored
      && multiset(t.stored[|s.stored|..]) <= multiset(s.queue[..n])
      && (forall i :: 0 <= i < n && oracle.single(i) == Inserted ==> s.queue[i] in t.stored[|s.stored|..])
      && (forall x :: x in t.stored[|s.stored|..] ==>
            exists i :: 0 <= i < n && s.queue[i] == x && oracle.single(i) == Inserted)
      && |t.stored| == |s.stored| + Successes(n, oracle.single)
  {
    var n := Min(BatchSize, |s.queue|);
    var t := ProcessBatchSpec(s, true, oracle);
    WrittenWithinBatch(s.queue[..n], oracle.single);
    WrittenCountsSuccesses(s.queue[..n], oracle.single);
    assert t.stored[|s.stored|..] == Written(s.queue[..n], oracle.single);
    forall x | x in t.stored[|s.stored|..]
      ensures exists i :: 0 <= i < n && s.queue[i] == x && oracle.single(i) == Inserted
    {
      WrittenOnlySucceeded(s.queue[..n], oracle.single, x);
      var i :| 0 <= i < n && s.queue[..n][i] == x && oracle.single(i) == Inserted;
      assert s.queue[i] == x;
    }
    forall i | 0 <= i < n && oracle.single(i) == Inserted
      ensures s.queue[i] in t.stored[|s.stored|..]
    {
      WrittenKeepsSucceeded(s.queue[..n], oracle.single, i);
    }
  }

  /** When the batch insert throws, the batch goes back at the head in its order: the state is unchanged. */
  lemma ThrownBatchIsRequeued(s: QueueState, fallback: bool, oracle: InsertOracle)
    requires oracle.batch == InsertThrew
    ensures ProcessBatchSpec(s, fallback, oracle) == s
  {
    if s.queue != [] {
      var n := Min(BatchSize, |s.queue|);
      assert s.queue[..n] + s.queue[n..] == s.queue;
    }
  }

  /**
   * With fallback off, a batch insert that returns an error puts the batch
   * back at the head twice: once before rethrowing and once in the handler.
   */
  lemma ErrorWithoutFallbackRequeuesTwice(s: QueueState, oracle: InsertOracle)
    requires s.queue != [] && oracle.batch == InsertError
    ensures var n := Min(BatchSize, |s.queue|);
      var t := ProcessBatchSpec(s, false, oracle);
      && t.queue == s.queue[..n] + s.queue
      && |t.queue| == |s.queue| + n
      && t.queue[..n] == t.queue[n..2 * n]
      && t.stored == s.stored
  {
    var n := Min(BatchSize, |s.queue|);
    assert s.queue[..n] + s.queue[n..] == s.queue;
  }

  /** `processBatch` never loses or duplicates a record except on the two failure paths above. */
  lemma ProcessBatchConserves(s: QueueState, fallback: bool, oracle: InsertOracle)
    requires oracle.batch != InsertError
    ensures var t := ProcessBatchSpec(s, fallback, oracle);
      multiset(t.stored) + multiset(t.queue) == multiset(s.stored) + multiset(s.queue)
  {
    if s.queue != [] {
      var n := Min(BatchSize, |s.queue|);
      assert s.queue == s.queue[..n] + s.queue[n..];
    }
  }

  /** Logging below the threshold appends the record at the tail and arms the timer, writing nothing. */
  lemma LogBelowThreshold(s: QueueState, record: AuditLogRecord, fallback: bool, oracle: InsertOracle)
    requires |s.queue| + 1 < BatchSize
    ensures LogSpec(s, record, fallback, oracle) == QueueState(s.queue + [record], true, s.stored)
  {
  }

  /** Logging the record that reaches the threshold processes a batch at once, whatever the timer. */
  lemma LogAtThreshold(s: QueueState, record: AuditLogRecord, fallback: bool, oracle: InsertOracle)
    requires |s.queue| + 1 >= BatchSize
    ensures LogSpec(s, record, fallback, oracle) == ProcessBatchSpec(s.(queue := s.queue + [record]), fallback, oracle)
    ensures LogSpec(s, record, fallback, oracle).pending == s.pending
  {
  }

  /** `logAuditChange` applied to records one after another. */
  function LogAll(s: QueueState, records: seq<AuditLogRecord>, fallback: bool, oracle: InsertOracle): QueueState
    decreases |records|
  {
    if records == [] then s else LogAll(LogSpec(s, records[0], fallback, oracle), records[1..], fallback, oracle)
  }

  /** While the queue stays under the batch size, logging only appends and arms the timer. */
  lemma {:induction false} LogAllBelowThreshold(s: QueueState, records: seq<AuditLogRecord>, fallback: bool, oracle: InsertOracle)
    requires |s.queue| + |records| < BatchSize
    ensures LogAll(s, records, fallback, oracle) ==
      QueueState(s.queue + records, s.pending || records != [], s.stored)
    decreases |records|
  {
    if records != [] {
      var s1 := LogSpec(s, records[0], fallback, oracle);
      LogBelowThreshold(s, records[0], fallback, oracle);
      LogAllBelowThreshold(s1, records[1..], fallback, oracle);
      assert s.queue + [records[0]] + records[1..] == s.queue + records;
    }
  }

  /**
   * From an empty queue, batchSize - 1 records cause no write, and the
   * batchSize-th record writes all of them at once when the insert succeeds.
   */
  lemma FullBatchFlushesImmediately(s: QueueState, records: seq<AuditLogRecord>, fallback: bool, oracle: InsertOracle)
    requires s.queue == [] && |records| == BatchSize && oracle.batch == Inserted
    ensures LogAll(s, records[..BatchSize - 1], fallback, oracle) == QueueState(records[..BatchSize - 1], true, s.stored)
    ensures LogAll(s, records, fallback, oracle) == QueueState([], true, s.stored + records)
  {
    var head := records[..BatchSize - 1];
    LogAllBelowThreshold(s, head, fallback, oracle);
    var s1 := LogAll(s, head, fallback, oracle);
    LogAllSplit(s, head, [records[BatchSize - 1]], fallback, oracle);
    assert head + [records[BatchSize - 1]] == records;
    assert s1.queue + [records[BatchSize - 1]] == records;
    assert LogAll(s1, [records[BatchSize - 1]], fallback, oracle) == LogSpec(s1, records[BatchSize - 1], fallback, oracle);
  }

  lemma {:induction false} LogAllSplit(s: QueueState, xs: seq<AuditLogRecord>, ys: seq<AuditLogRecord>, fallback: bool, oracle: InsertOracle)
    ensures LogAll(s, xs + ys, fallback, oracle) == LogAll(LogAll(s, xs, fallback, oracle), ys, fallback, oracle)
    decreases |xs|
  {
    if xs == [] {
      assert xs + ys == ys;
    } else {
      assert (xs + ys)[0] == xs[0];
      assert (xs + ys)[1..] == xs[1..] + ys;
      LogAllSplit(LogSpec(s, xs[0], fallback, oracle), xs[1..], ys, fallback, oracle);
    }
  }

  /** Logging and timer runs keep every queued record covered by an armed timer. */
  lemma LogAndTickKeepArmed(s: QueueState, record: AuditLogRecord, fallback: bool, oracle: InsertOracle)
    requires Armed(s)
    ensures Armed(LogSpec(s, record, fallback, oracle))
    ensures Armed(TickSpec(s, fallback, oracle))
  {
    if |s.queue| + 1 >= BatchSize {
      var s1 := s.(queue := s.queue + [record]);
      assert s1.pending;
      assert ProcessBatchSpec(s1, fallback, oracle).pending;
    }
  }

  /** A timer run re-arms exactly when records remain. */
  lemma TickRearmsWhileNonEmpty(s: QueueState, fallback: bool, oracle: InsertOracle)
    requires s.pending
    ensures var t := TickSpec(s, fallback, oracle); t.pending <==> |t.queue| > 0
  {
  }

  const SampleRecord := AuditLogRecord(MemberEntity, "member-1", Create, None, None, "system", "system",
                                       "", None, None, None, [], false, "")

  /**
   * `flushAuditQueue` cancels the timer and drains a single batch: with 51
   * queued records and a successful insert, one record stays queued with no
   * timer armed.
   */
  lemma FlushCanLeaveRecordsWithoutTimer()
    ensures var s := QueueState(seq(BatchSize + 1, _ => SampleRecord), true, []);
      var t := FlushSpec(s, true, InsertOracle(Inserted, _ => Inserted));
      Armed(s) && |t.queue| == 1 && !t.pending && !Armed(t)
  {
  }

  // ---------------------------------------------------------------------
  // The batching queue, as an object updated in place
  // ---------------------------------------------------------------------

  datatype LogResult = Queued | LogFailed(error: string)

  datatype FlushResult = FlushResult(success: bool, processed: nat)

  datatype QueueStats = QueueStats(queueSize: nat, batchSize: nat, batchInterval: nat, isFull: bool)

  /** The module-level `auditQueue` and `batchTimer`, and the rows this queue wrote to `audit_logs`. */
  class AuditQueue {
    var queue: seq<AuditLogRecord>
    var pending: bool
    var stored: seq<AuditLogRecord>
    const fallbackToRealtime: bool
    const ser: Json -> string

    function State(): QueueState
      reads this
    {
      QueueState(queue, pending, stored)
    }

    constructor (fallbackToRealtime: bool, ser: Json -> string)
      ensures State() == QueueState([], false, [])
      ensures this.fallbackToRealtime == fallbackToRealtime && this.ser == ser
    {
      queue, pending, stored := [], false, [];
      this.fallbackToRealtime := fallbackToRealtime;
      this.ser := ser;
    }

    /** `processBatch` */
    method ProcessBatch(oracle: InsertOracle)
      modifies this
      ensures State() == ProcessBatchSpec(old(State()), fallbackToRealtime, oracle)
    {
      if |queue| == 0 {
        return;
      }
      var n := Min(BatchSize, |queue|);
      var entriesToProcess := queue[..n];
      queue := queue[n..];
      match oracle.batch
      case Inserted =>
        stored := stored + entriesToProcess;
      case InsertError =>
        if fallbackToRealtime {
          var i := 0;
          while i < |entriesToProcess|
            invariant 0 <= i <= |entriesToProcess|
            invariant stored == old(stored) + Written(entriesToProcess[..i], oracle.single)
            invariant queue == old(queue)[n..] && pending == old(pending)
          {
            assert entriesToProcess[..i + 1][..i] == entriesToProcess[..i];
            if oracle.single(i) == Inserted {
              stored := stored + [entriesToProcess[i]];
            }
            i := i + 1;
          }
          assert entriesToProcess[..i] == entriesToProcess;
        } else {
          queue := entriesToProcess + queue;  // requeued before rethrowing
          queue := entriesToProcess + queue;  // requeued again by the handler
        }
      case InsertThrew =>
        queue := entriesToProcess + queue;
    }

    /** `scheduleBatchProcess`: clear any armed timer and arm a new one. */
    method ScheduleBatchProcess()
      modifies this
      ensures State() == old(State()).(pending := true)
    {
      pending := true;
    }

    /** The armed timer fires. */
    method Tick(oracle: InsertOracle)
      modifies this
      ensures State() == TickSpec(old(State()), fallbackToRealtime, oracle)
    {
      if !pending {
        return;
      }
      pending := false;
      ProcessBatch(oracle);
      if |queue| > 0 {
        ScheduleBatchProcess();
      }
    }

    /** `logAuditChange` */
    method LogAuditChange(entry: AuditEntry, context: ContextLookup, now: string, oracle: InsertOracle)
      returns (result: LogResult)
      modifies this
      ensures context.LookupThrew? ==>
        result == LogFailed(context.message.GetOr("Unknown error")) && State() == old(State())
      ensures context.Resolved? ==>
        && result == Queued
        && State() == LogSpec(old(State()),
                              BuildRecord(entry, context.context, Diff(entry.before, entry.after, entry.action, ser), now),
                              fallbackToRealtime, oracle)
    {
      if context.LookupThrew? {
        return LogFailed(context.message.GetOr("Unknown error"));
      }
      var changeDiff := CalculateDiff(entry.before, entry.after, entry.action, ser);
      var auditRecord := BuildRecord(entry, context.context, changeDiff, now);
      queue := queue + [auditRecord];
      if |queue| >= BatchSize {
        ProcessBatch(oracle);
      } else {
        ScheduleBatchProcess();
      }
      return Queued;
    }

    /** `flushAuditQueue`: `processed` is the number of records still queued. */
    method FlushAuditQueue(oracle: InsertOracle) returns (result: FlushResult)
      modifies this
      ensures State() == FlushSpec(old(State()), fallbackToRealtime, oracle)
      ensures result == FlushResult(true, |queue|)
    {
      pending := false;
      ProcessBatch(oracle);
      return FlushResult(true, |queue|);
    }

    /** `getAuditQueueStats` */
    function GetAuditQueueStats(): (stats: QueueStats)
      reads this
      ensures stats.queueSize == |queue| && stats.batchSize == 50 && stats.batchInterval == 30000
      ensures stats.isFull <==> |queue| >= 50
    {
      QueueStats(|queue|, BatchSize, AuditBatchConfig.batchInterval, |queue| >= BatchSize)
    }
  }
}
