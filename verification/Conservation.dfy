/** Error groups as an aggregate over every log ever ingested: the counter and the other columns of
    each group agree with the full history, under rollbacks, deletions, cleanups and redeliveries. */
module Conservation {
  import opened Prelude
  import opened Fingerprint
  import opened Tables
  import opened Logs
  import opened Jobs
  import BulkIngestion
  import Cleanup
  import opened Service

  // ----- The reference: what the history says of one key -----

  function Occurrences(history: seq<Entry>, key: GroupKey): nat {
    if history == [] then 0
    else
      var last := |history| - 1;
      Occurrences(history[..last], key) + if KeyOf(history[last].log) == Some(key) then 1 else 0
  }

  function FirstWith(history: seq<Entry>, key: GroupKey): Option<Log> {
    if history == [] then None
    else
      var last := |history| - 1;
      var earlier := FirstWith(history[..last], key);
      if earlier.Some? then earlier
      else if KeyOf(history[last].log) == Some(key) then Some(history[last].log) else None
  }

  function LastWith(history: seq<Entry>, key: GroupKey): Option<Log> {
    if history == [] then None
    else
      var last := |history| - 1;
      if KeyOf(history[last].log) == Some(key) then Some(history[last].log)
      else LastWith(history[..last], key)
  }

  /** The group's columns follow from the history of its key. */
  predicate Summarises(group: Group, history: seq<Entry>) {
    var first, last := FirstWith(history, group.key), LastWith(history, group.key);
    && group.count == Occurrences(history, group.key)
    && first.Some? && last.Some?
    && group.firstSeen == first.value.item.timestamp
    && group.lastSeen == last.value.item.timestamp
    && group.exceptionType == last.value.item.exceptionType
    && group.title == GroupTitle(last.value.item.exceptionType, last.value.normalized)
    && group.severity == SeverityForLevel(last.value.item.level)
  }

  /** The log is stored as its submission normalises, and belongs to a group exactly when its level
      is warning, error or critical: the one with its own service, environment and fingerprint. */
  ghost predicate Filed(rules: Rules, groups: seq<Group>, log: Log) {
    && log.normalized == NormalizeCommon(rules, log.item.message)
    && if ShouldGroup(log.item.level) then
         log.fingerprint == Some(FingerprintOf(rules, log.item))
         && exists i :: 0 <= i < |groups| && KeyOf(log) == Some(groups[i].key)
                        && log.groupId == Some(groups[i].id)
       else log.fingerprint.None? && log.groupId.None?
  }

  ghost predicate GroupRows(groups: seq<Group>, nextGroupId: nat) {
    && (forall i | 0 <= i < |groups| :: groups[i].id < nextGroupId)
    && forall i, j | 0 <= i < j < |groups| :: groups[i].id < groups[j].id && groups[i].key != groups[j].key
  }

  ghost predicate LogRows(logs: seq<Log>, history: seq<Entry>, nextLogId: nat) {
    && (forall i | 0 <= i < |history| :: history[i].log.id < nextLogId)
    && (forall i, j | 0 <= i < j < |history| :: history[i].log.id < history[j].log.id)
    && (forall i, j | 0 <= i < j < |logs| :: logs[i].id < logs[j].id)
    && (forall log | log in logs :: InHistory(log, history))
  }

  ghost predicate InHistory(log: Log, history: seq<Entry>) {
    exists k :: 0 <= k < |history| && history[k].log == log
  }

  ghost predicate Aggregates(rules: Rules, groups: seq<Group>, history: seq<Entry>) {
    && (forall i | 0 <= i < |groups| :: Summarises(groups[i], history))
    && (forall k | 0 <= k < |history| :: Filed(rules, groups, history[k].log))
  }

  ghost predicate GroupInv(rules: Rules, db: Db) {
    GroupRows(db.groups, db.nextGroupId) && LogRows(db.logs, db.history, db.nextLogId)
    && Aggregates(rules, db.groups, db.history)
  }

  // ----- One more log -----

  lemma AppendOther(history: seq<Entry>, entry: Entry, key: GroupKey)
    requires KeyOf(entry.log) != Some(key)
    ensures Occurrences(history + [entry], key) == Occurrences(history, key)
    ensures FirstWith(history + [entry], key) == FirstWith(history, key)
    ensures LastWith(history + [entry], key) == LastWith(history, key)
  {
    assert (history + [entry])[..|history|] == history;
  }

  lemma AppendSame(history: seq<Entry>, entry: Entry, key: GroupKey)
    requires KeyOf(entry.log) == Some(key)
    ensures Occurrences(history + [entry], key) == Occurrences(history, key) + 1
    ensures FirstWith(history + [entry], key)
            == if FirstWith(history, key).Some? then FirstWith(history, key) else Some(entry.log)
    ensures LastWith(history + [entry], key) == Some(entry.log)
  {
    assert (history + [entry])[..|history|] == history;
  }

  lemma {:induction false} AbsentKey(history: seq<Entry>, key: GroupKey)
    requires forall k | 0 <= k < |history| :: KeyOf(history[k].log) != Some(key)
    ensures Occurrences(history, key) == 0 && FirstWith(history, key).None? && LastWith(history, key).None?
  {
    if history != [] {
      AbsentKey(history[..|history| - 1], key);
    }
  }

  /** The group row an insertion leaves for its key. */
  function GroupAfter(rules: Rules, db: Db, item: Item): Group {
    var key := GroupKey(item.service, item.environment, FingerprintOf(rules, item));
    var title := GroupTitle(item.exceptionType, NormalizeCommon(rules, item.message));
    var i := FindGroup(db.groups, key);
    if i.Some? then
      db.groups[i.value].(title := title, exceptionType := item.exceptionType, lastSeen := item.timestamp,
                          severity := SeverityForLevel(item.level), count := db.groups[i.value].count + 1)
    else Group(db.nextGroupId, key, title, item.exceptionType, item.timestamp, item.timestamp, 1,
               SeverityForLevel(item.level))
  }

  function GroupsAfter(rules: Rules, db: Db, item: Item): seq<Group> {
    if !ShouldGroup(item.level) then db.groups
    else
      var i := FindGroup(db.groups, GroupKey(item.service, item.environment, FingerprintOf(rules, item)));
      if i.Some? then db.groups[i.value := GroupAfter(rules, db, item)]
      else db.groups + [GroupAfter(rules, db, item)]
  }

  function LogAfter(rules: Rules, db: Db, item: Item, now: int): Log {
    Log(db.nextLogId, item, NormalizeCommon(rules, item.message),
        if ShouldGroup(item.level) then Some(FingerprintOf(rules, item)) else None,
        if ShouldGroup(item.level) then Some(GroupAfter(rules, db, item).id) else None, now)
  }

  lemma PersistEffect(rules: Rules, db: Db, item: Item, origin: Origin, now: int, fault: Fault)
    requires fault.NoFault?
    ensures
      var log := LogAfter(rules, db, item, now);
      PersistLog(rules, db, item, origin, now, fault).0
      == db.(groups := GroupsAfter(rules, db, item),
             nextGroupId := if ShouldGroup(item.level) then db.nextGroupId + 1 else db.nextGroupId,
             logs := db.logs + [log], nextLogId := db.nextLogId + 1,
             history := db.history + [Entry(log, origin)])
  {
    hide NormalizeCommon, GenerateFingerprint, GroupTitle;
  }

  lemma GroupRowsAfter(rules: Rules, db: Db, item: Item)
    requires GroupRows(db.groups, db.nextGroupId)
    ensures GroupRows(GroupsAfter(rules, db, item),
                      if ShouldGroup(item.level) then db.nextGroupId + 1 else db.nextGroupId)
  {
    hide NormalizeCommon, FingerprintOf, GroupTitle;
  }

  lemma LogRowsAfter(logs: seq<Log>, history: seq<Entry>, nextLogId: nat, log: Log, origin: Origin)
    requires LogRows(logs, history, nextLogId) && log.id == nextLogId
    ensures LogRows(logs + [log], history + [Entry(log, origin)], nextLogId + 1)
  {
    var history' := history + [Entry(log, origin)];
    assert history'[|history|].log == log;
    forall l | l in logs + [log] ensures InHistory(l, history') {
      if l in logs {
        assert InHistory(l, history);
        var k :| 0 <= k < |history| && history[k].log == l;
        assert history'[k].log == l;
      }
    }
    assert forall i | 0 <= i < |logs| :: logs[i].id < nextLogId by {
      forall i | 0 <= i < |logs| ensures logs[i].id < nextLogId {
        assert InHistory(logs[i], history);
      }
    }
  }

  /** Groups whose ids and keys are still there keep their logs filed. */
  lemma StillFiled(rules: Rules, before: seq<Group>, after: seq<Group>, log: Log)
    requires Filed(rules, before, log) && |before| <= |after|
    requires forall i | 0 <= i < |before| :: after[i].id == before[i].id && after[i].key == before[i].key
    ensures Filed(rules, after, log)
  {
    hide NormalizeCommon, FingerprintOf;
    if ShouldGroup(log.item.level) {
      var i :| 0 <= i < |before| && KeyOf(log) == Some(before[i].key) && log.groupId == Some(before[i].id);
      assert KeyOf(log) == Some(after[i].key) && log.groupId == Some(after[i].id);
    }
  }

  lemma NewKeyIsAbsent(rules: Rules, groups: seq<Group>, history: seq<Entry>, key: GroupKey)
    requires Aggregates(rules, groups, history) && forall i | 0 <= i < |groups| :: groups[i].key != key
    ensures forall k | 0 <= k < |history| :: KeyOf(history[k].log) != Some(key)
  {
    hide NormalizeCommon, FingerprintOf, Summarises;
    forall k | 0 <= k < |history| ensures KeyOf(history[k].log) != Some(key) {
      assert Filed(rules, groups, history[k].log);
    }
  }

  lemma SummaryAfter(rules: Rules, db: Db, item: Item, origin: Origin, now: int, i: nat)
    requires GroupRows(db.groups, db.nextGroupId) && Aggregates(rules, db.groups, db.history)
    requires i < |GroupsAfter(rules, db, item)|
    ensures Summarises(GroupsAfter(rules, db, item)[i], db.history + [Entry(LogAfter(rules, db, item, now), origin)])
  {
    hide NormalizeCommon, FingerprintOf, GroupTitle, Filed;
    var after, entry := GroupsAfter(rules, db, item), Entry(LogAfter(rules, db, item, now), origin);
    var key := GroupKey(item.service, item.environment, FingerprintOf(rules, item));
    assert KeyOf(entry.log) == if ShouldGroup(item.level) then Some(key) else None;
    if ShouldGroup(item.level) && after[i].key == key {
      AppendSame(db.history, entry, key);
      var found := FindGroup(db.groups, key);
      if found.None? {
        NewKeyIsAbsent(rules, db.groups, db.history, key);
        AbsentKey(db.history, key);
      } else {
        assert found.value == i;
        assert Summarises(db.groups[i], db.history);
      }
    } else {
      AppendOther(db.history, entry, after[i].key);
      assert after[i] == db.groups[i];
      assert Summarises(db.groups[i], db.history);
    }
  }

  lemma FiledAfter(rules: Rules, db: Db, item: Item, now: int)
    requires GroupRows(db.groups, db.nextGroupId)
    ensures Filed(rules, GroupsAfter(rules, db, item), LogAfter(rules, db, item, now))
  {
    hide NormalizeCommon, FingerprintOf, GroupTitle;
    if ShouldGroup(item.level) {
      var after, log := GroupsAfter(rules, db, item), LogAfter(rules, db, item, now);
      var found := FindGroup(db.groups, GroupKey(item.service, item.environment, FingerprintOf(rules, item)));
      var i := if found.Some? then found.value else |db.groups|;
      assert after[i] == GroupAfter(rules, db, item);
      assert KeyOf(log) == Some(after[i].key) && log.groupId == Some(after[i].id);
    }
  }

  lemma AggregatesAfter(rules: Rules, db: Db, item: Item, origin: Origin, now: int)
    requires GroupRows(db.groups, db.nextGroupId) && Aggregates(rules, db.groups, db.history)
    ensures Aggregates(rules, GroupsAfter(rules, db, item),
                       db.history + [Entry(LogAfter(rules, db, item, now), origin)])
  {
    var after, log := GroupsAfter(rules, db, item), LogAfter(rules, db, item, now);
    var history' := db.history + [Entry(log, origin)];
    hide Summarises, Filed, FingerprintOf, NormalizeCommon;
    forall i | 0 <= i < |after| ensures Summarises(after[i], history') {
      SummaryAfter(rules, db, item, origin, now, i);
    }
    forall k | 0 <= k < |history'| ensures Filed(rules, after, history'[k].log) {
      if k < |db.history| {
        StillFiled(rules, db.groups, after, db.history[k].log);
      } else {
        FiledAfter(rules, db, item, now);
      }
    }
  }

  /** An insertion that meets no fault keeps the aggregate in step with the history. */
  lemma PersistKeepsGroups(rules: Rules, db: Db, item: Item, origin: Origin, now: int, fault: Fault)
    requires GroupInv(rules, db) && fault.NoFault?
    ensures GroupInv(rules, PersistLog(rules, db, item, origin, now, fault).0)
  {
    hide Aggregates, GroupRows, LogRows, PersistLog, GroupsAfter;
    PersistEffect(rules, db, item, origin, now, fault);
    GroupRowsAfter(rules, db, item);
    LogRowsAfter(db.logs, db.history, db.nextLogId, LogAfter(rules, db, item, now), origin);
    AggregatesAfter(rules, db, item, origin, now);
  }

  // ----- Every step -----

  lemma IngestKeepsGroups(rules: Rules, db: Db, item: Item, now: int, fault: Fault)
    requires GroupInv(rules, db)
    ensures GroupInv(rules, IngestLog(rules, db, item, now, fault).0)
  {
    BulkIngestion.PersistOutcome(rules, db, item, Single, now, fault);
    hide PersistLog, Aggregates, GroupRows, LogRows;
    if fault.NoFault? {
      PersistKeepsGroups(rules, db, item, Single, now, fault);
    }
  }

  lemma {:induction false} PrefixKeepsGroups(rules: Rules, db: Db, i: nat, weather: BulkIngestion.Weather, n: nat)
    requires GroupInv(rules, db)
    requires i < |db.jobs| && db.jobs[i].payload.BulkPayload? && n <= |db.jobs[i].payload.logs|
    ensures GroupInv(rules, BulkIngestion.Prefix(rules, db, i, weather, n))
  {
    hide GroupInv, BulkIngestion.ItemCommitted;
    if n > 0 {
      var before := BulkIngestion.Prefix(rules, db, i, weather, n - 1);
      PrefixKeepsGroups(rules, db, i, weather, n - 1);
      BulkIngestion.NextPrefix(rules, db, i, weather, n - 1);
      ItemKeepsGroups(rules, before, i, db.jobs[i].payload.logs[n - 1], weather, n - 1);
    }
  }

  lemma ItemKeepsGroups(rules: Rules, db: Db, i: nat, item: Item, weather: BulkIngestion.Weather, n: nat)
    requires GroupInv(rules, db) && i < |db.jobs| && db.jobs[i].payload.BulkPayload?
    ensures GroupInv(rules, BulkIngestion.ItemCommitted(rules, db, i, item, weather, n))
  {
    var origin, now, fault := Bulk(db.jobs[i].id), weather.clock(n + 1), weather.faults(n);
    BulkIngestion.PersistOutcome(rules, db, item, origin, now, fault);
    BulkIngestion.PersistKeepsJobs(rules, db, item, origin, now, fault);
    hide PersistLog, Aggregates, GroupRows, LogRows;
    if fault.NoFault? {
      PersistKeepsGroups(rules, db, item, origin, now, fault);
    }
  }

  lemma FewerLogs(logs: seq<Log>, kept: seq<Log>, history: seq<Entry>, nextLogId: nat)
    requires LogRows(logs, history, nextLogId)
    requires (forall log | log in kept :: log in logs) && forall i, j | 0 <= i < j < |kept| :: kept[i].id < kept[j].id
    ensures LogRows(kept, history, nextLogId)
  {
  }

  lemma LogsAscend(logs: seq<Log>, history: seq<Entry>, nextLogId: nat)
    requires LogRows(logs, history, nextLogId)
    ensures forall i, j | 0 <= i < j < |logs| :: logs[i].id < logs[j].id
  {
  }

  lemma {:induction false} SweepAscends(logs: seq<Log>, threshold: int, n: nat)
    requires forall i, j | 0 <= i < j < |logs| :: logs[i].id < logs[j].id
    ensures
      var kept := Cleanup.Sweep(logs, threshold, n);
      (forall log | log in kept :: log in logs) && forall i, j | 0 <= i < j < |kept| :: kept[i].id < kept[j].id
  {
    if logs != [] && n > 0 {
      var rest, n' := logs[1..], if Cleanup.Expired(logs[0], threshold) then n - 1 else n;
      SweepAscends(rest, threshold, n');
      var kept := Cleanup.Sweep(rest, threshold, n');
      assert forall log | log in rest :: log in logs && logs[0].id < log.id;
      forall k | 0 <= k < |kept| ensures logs[0].id < kept[k].id {
        assert kept[k] in rest;
      }
      assert logs[0] in logs;
    }
  }

  lemma DeletionAscends(logs: seq<Log>, i: nat)
    requires i < |logs| && forall i, j | 0 <= i < j < |logs| :: logs[i].id < logs[j].id
    ensures
      var kept := logs[..i] + logs[i + 1..];
      (forall log | log in kept :: log in logs) && forall i, j | 0 <= i < j < |kept| :: kept[i].id < kept[j].id
  {
  }

  /** Deletions and cleanups touch nothing but the logs table. */
  lemma RemovalKeepsGroups(rules: Rules, db: Db, step: Step)
    requires GroupInv(rules, db) && (step.Delete? || step.CleanUp?)
    ensures GroupInv(rules, Apply(rules, db, step))
    ensures Apply(rules, db, step) == db.(logs := Apply(rules, db, step).logs)
  {
    hide Aggregates, LogRows;
    LogsAscend(db.logs, db.history, db.nextLogId);
    if step.CleanUp? {
      Cleanup.SweptIsSweep(db.logs, step.threshold, step.batch, step.stop);
      SweepAscends(db.logs, step.threshold, step.batch * step.stop);
      FewerLogs(db.logs, Apply(rules, db, step).logs, db.history, db.nextLogId);
    } else {
      var i := FindLog(db.logs, step.logId);
      if i.Some? {
        DeletionAscends(db.logs, i.value);
        FewerLogs(db.logs, Apply(rules, db, step).logs, db.history, db.nextLogId);
      }
    }
  }

  lemma DeliveryKeepsGroups(rules: Rules, db: Db, jobId: string, weather: BulkIngestion.Weather, stop: nat)
    requires GroupInv(rules, db)
    ensures GroupInv(rules, BulkIngestion.Deliver(rules, db, jobId, weather, stop))
  {
    hide Aggregates, GroupRows, LogRows, PersistLog;
    var found := FindJob(db.jobs, jobId);
    if found.Some? {
      var started := SetJob(db, found.value, MarkedRunning(db.jobs[found.value], weather.clock(0)));
      var job := started.jobs[found.value];
      if job.payload.BulkPayload? && stop > 0 {
        var total := |job.payload.logs|;
        PrefixKeepsGroups(rules, started, found.value, weather, if stop <= total + 1 then stop - 1 else total);
      }
    }
  }

  lemma StepKeepsGroups(rules: Rules, db: Db, step: Step)
    requires GroupInv(rules, db)
    ensures GroupInv(rules, Apply(rules, db, step))
  {
    hide Aggregates, GroupRows, LogRows, IngestLog, BulkIngestion.Deliver, DeleteLog, Cleanup.Swept;
    match step
    case Ingest(item, now, fault) => IngestKeepsGroups(rules, db, item, now, fault);
    case DeliverBulk(jobId, weather, stop) => DeliveryKeepsGroups(rules, db, jobId, weather, stop);
    case Delete(_) => RemovalKeepsGroups(rules, db, step);
    case CleanUp(_, _, _) => RemovalKeepsGroups(rules, db, step);
    case SubmitBulk(_, _, _) =>
    case RequestAnalysis(_, _, _) =>
    case DeliverAnalysis(_, _, _, _) =>
  }

  /** After any run every group's columns are those its history gives, keys and ids are unique, and
      every log ever ingested is filed under its own group exactly when its level asks for one. */
  lemma {:induction false} RunKeepsGroups(rules: Rules, db: Db, steps: seq<Step>)
    requires GroupInv(rules, db)
    ensures GroupInv(rules, Run(rules, db, steps))
    decreases |steps|
  {
    if steps != [] {
      StepKeepsGroups(rules, db, steps[0]);
      RunKeepsGroups(rules, Apply(rules, db, steps[0]), steps[1..]);
    }
  }
}
