/** Ingesting and deleting logs (app/services/logs.py, app/repositories/error_group.py,
    app/repositories/log.py). */
module Logs {
  import opened Prelude
  import opened Database
  import opened Fingerprint
  import opened Tables

  /** Where inserting one log raises an exception, if it does. */
  datatype Fault =
    | NoFault
    | BeforeGroup(error: string)
    | AfterGroup(error: string)
    | AfterLog(error: string)

  predicate ShouldGroup(level: Level) {
    level == Warning || level == Error || level == Critical
  }

  function SeverityForLevel(level: Level): Severity {
    if level == Warning then MediumSeverity
    else if level == Error then HighSeverity
    else CriticalSeverity
  }

  function Cut(s: string, n: nat): string {
    if |s| <= n then s else s[..n]
  }

  function GroupTitle(exceptionType: Option<string>, normalized: string): string {
    if exceptionType.Some? && exceptionType.value != "" then Cut(exceptionType.value, 512)
    else Cut(normalized, 512)
  }

  function FindGroup(groups: seq<Group>, key: GroupKey): (r: Option<nat>)
    ensures r.Some? ==> r.value < |groups| && groups[r.value].key == key
                        && forall k | 0 <= k < r.value :: groups[k].key != key
    ensures r.None? ==> forall k | 0 <= k < |groups| :: groups[k].key != key
  {
    FirstWhere(groups, (g: Group) => g.key == key)
  }

  /** `INSERT ... ON CONFLICT DO UPDATE ... RETURNING id`. The id sequence moves on either way. */
  function UpsertGroup(db: Db, key: GroupKey, title: string, exceptionType: Option<string>,
                       seen: int, severity: Severity): (Db, nat)
  {
    match FindGroup(db.groups, key)
    case None =>
      var group := Group(db.nextGroupId, key, title, exceptionType, seen, seen, 1, severity);
      (db.(groups := db.groups + [group], nextGroupId := db.nextGroupId + 1), group.id)
    case Some(i) =>
      var group := db.groups[i].(title := title, exceptionType := exceptionType, lastSeen := seen,
                                 severity := severity, count := db.groups[i].count + 1);
      (db.(groups := db.groups[i := group], nextGroupId := db.nextGroupId + 1), group.id)
  }

  ghost predicate UniqueKeys(groups: seq<Group>) {
    forall i, j | 0 <= i < j < |groups| :: groups[i].key != groups[j].key
  }

  /** After an upsert the returned id is that of the key's group, which carries the latest columns. A
      known group counts one more and keeps its id and first time, a new one starts from one; every
      other group is as it was, and keys stay unique. */
  lemma UpsertFilesUnderItsKey(db: Db, key: GroupKey, title: string, exceptionType: Option<string>,
                               seen: int, severity: Severity)
    ensures
      var (after, groupId) := UpsertGroup(db, key, title, exceptionType, seen, severity);
      var known, i := FindGroup(db.groups, key), FindGroup(after.groups, key);
      && i.Some? && after.groups[i.value].id == groupId
      && var group := after.groups[i.value];
         group.title == title && group.exceptionType == exceptionType && group.lastSeen == seen
         && group.severity == severity
         && (if known.Some? then
               i == known && |after.groups| == |db.groups| && group.id == db.groups[i.value].id
               && group.count == db.groups[i.value].count + 1 && group.firstSeen == db.groups[i.value].firstSeen
             else
               i.value == |db.groups| == |after.groups| - 1 && group.count == 1 && group.firstSeen == seen)
         && (forall k | 0 <= k < |db.groups| && k != i.value :: after.groups[k] == db.groups[k])
         && (UniqueKeys(db.groups) ==> UniqueKeys(after.groups))
  {
    var after := UpsertGroup(db, key, title, exceptionType, seen, severity).0;
    var known, i := FindGroup(db.groups, key), FindGroup(after.groups, key);
    var at := if known.Some? then known.value else |db.groups|;
    assert after.groups[at].key == key;
    assert i == Some(at);
  }

  function CreateLog(db: Db, item: Item, normalized: string, fingerprint: Option<Digest>,
                     groupId: Option<nat>, origin: Origin, now: int): (Db, Log)
  {
    var log := Log(db.nextLogId, item, normalized, fingerprint, groupId, now);
    (db.(logs := db.logs + [log], nextLogId := db.nextLogId + 1,
         history := db.history + [Entry(log, origin)]), log)
  }

  /** `_persist_log`: the database after it, and the new log or the exception it raised. After an
      exception the statements already run are still there, for a rollback to undo. */
  function PersistLog(rules: Rules, db: Db, item: Item, origin: Origin, now: int, fault: Fault)
    : (Db, Result<Log, string>)
  {
    if fault.BeforeGroup? then (db, Err(fault.error))
    else
      var normalized := NormalizeCommon(rules, item.message);
      if ShouldGroup(item.level) then
        var fingerprint := FingerprintOf(rules, item);
        var (grouped, groupId) := UpsertGroup(db, GroupKey(item.service, item.environment, fingerprint),
          GroupTitle(item.exceptionType, normalized), item.exceptionType, item.timestamp,
          SeverityForLevel(item.level));
        InsertAfterGroup(grouped, item, normalized, Some(fingerprint), Some(groupId), origin, now, fault)
      else InsertAfterGroup(db, item, normalized, None, None, origin, now, fault)
  }

  function FingerprintOf(rules: Rules, item: Item): Digest {
    GenerateFingerprint(rules, FingerprintInput(
      item.service, NormalizeCommon(rules, item.message), item.exceptionType, item.stackTrace))
  }

  function InsertAfterGroup(db: Db, item: Item, normalized: string, fingerprint: Option<Digest>,
                            groupId: Option<nat>, origin: Origin, now: int, fault: Fault)
    : (Db, Result<Log, string>)
  {
    if fault.AfterGroup? then (db, Err(fault.error))
    else
      var (inserted, log) := CreateLog(db, item, normalized, fingerprint, groupId, origin, now);
      if fault.AfterLog? then (inserted, Err(fault.error)) else (inserted, Ok(log))
  }

  /** A single ingest: committed as a whole or not at all. */
  function IngestLog(rules: Rules, db: Db, item: Item, now: int, fault: Fault): (Db, Result<Log, string>) {
    var (persisted, result) := PersistLog(rules, db, item, Single, now, fault);
    (if result.Ok? then persisted else db, result)
  }

  function FindLog(logs: seq<Log>, id: nat): (r: Option<nat>)
    ensures r.Some? ==> r.value < |logs| && logs[r.value].id == id
    ensures r.None? ==> forall k | 0 <= k < |logs| :: logs[k].id != id
  {
    FirstWhere(logs, (log: Log) => log.id == id)
  }

  /** The database without one log, and whether there was such a log. */
  function DeleteLog(db: Db, id: nat): (Db, bool) {
    match FindLog(db.logs, id)
    case None => (db, false)
    case Some(i) => (db.(logs := db.logs[..i] + db.logs[i + 1..]), true)
  }

  /** A deletion answers whether the id was stored. It removes that one log and leaves the others, in
      order, and everything else as they were. */
  lemma DeletionRemovesExactly(db: Db, id: nat)
    requires UniqueLogIds(db.logs)
    ensures
      var (db', found) := DeleteLog(db, id);
      && (found <==> exists k :: 0 <= k < |db.logs| && db.logs[k].id == id)
      && db' == db.(logs := db'.logs)
      && (forall log :: log in db'.logs <==> log in db.logs && log.id != id)
      && (!found ==> db' == db)
      && (found ==> exists k :: 0 <= k < |db.logs| && db'.logs == db.logs[..k] + db.logs[k + 1..])
  {
    var i := FindLog(db.logs, id);
    if i.Some? {
      var kept := db.logs[..i.value] + db.logs[i.value + 1..];
      assert DeleteLog(db, id).0.logs == kept;
      forall log | log in db.logs && log.id != id ensures log in kept {
        var k :| 0 <= k < |db.logs| && db.logs[k] == log;
        assert kept[if k < i.value then k else k - 1] == log;
      }
    }
  }

  class ErrorGroupRepository {
    const session: Session<Db>

    constructor (session: Session<Db>)
      ensures this.session == session
    {
      this.session := session;
    }

    method Upsert(key: GroupKey, title: string, exceptionType: Option<string>, seen: int, severity: Severity)
      returns (groupId: nat)
      modifies session`working
      ensures (session.working, groupId)
              == UpsertGroup(old(session.working), key, title, exceptionType, seen, severity)
    {
      var db := session.working;
      var conflict := FindGroup(db.groups, key);
      if conflict.None? {
        var group := Group(db.nextGroupId, key, title, exceptionType, seen, seen, 1, severity);
        session.working := db.(groups := db.groups + [group], nextGroupId := db.nextGroupId + 1);
        return group.id;
      }
      var group := db.groups[conflict.value];
      group := group.(title := title, exceptionType := exceptionType, lastSeen := seen, severity := severity,
                      count := group.count + 1);
      session.working := db.(groups := db.groups[conflict.value := group], nextGroupId := db.nextGroupId + 1);
      return group.id;
    }
  }

  class LogRepository {
    const session: Session<Db>

    constructor (session: Session<Db>)
      ensures this.session == session
    {
      this.session := session;
    }

    method Create(item: Item, normalized: string, fingerprint: Option<Digest>, groupId: Option<nat>,
                  origin: Origin, now: int) returns (log: Log)
      modifies session`working
      ensures (session.working, log)
              == CreateLog(old(session.working), item, normalized, fingerprint, groupId, origin, now)
    {
      var db := session.working;
      log := Log(db.nextLogId, item, normalized, fingerprint, groupId, now);
      session.working := db.(logs := db.logs + [log], nextLogId := db.nextLogId + 1,
                             history := db.history + [Entry(log, origin)]);
    }

    method Remove(i: nat)
      requires i < |session.working.logs|
      modifies session`working
      ensures
        var logs := old(session.working).logs;
        session.working == old(session.working).(logs := logs[..i] + logs[i + 1..])
    {
      var logs := session.working.logs;
      session.working := session.working.(logs := logs[..i] + logs[i + 1..]);
    }
  }

  class LogService {
    const rules: Rules
    const session: Session<Db>
    const logs: LogRepository
    const groups: ErrorGroupRepository

    constructor (rules: Rules, session: Session<Db>)
      ensures this.rules == rules && this.session == session && Valid()
    {
      this.rules, this.session := rules, session;
      this.logs := new LogRepository(session);
      this.groups := new ErrorGroupRepository(session);
    }

    ghost predicate Valid() {
      logs.session == session && groups.session == session
    }

    method Persist(item: Item, origin: Origin, now: int, fault: Fault) returns (result: Result<Log, string>)
      requires Valid()
      modifies session`working
      ensures (session.working, result) == PersistLog(rules, old(session.working), item, origin, now, fault)
    {
      hide NormalizeCommon, GenerateFingerprint, UpsertGroup, CreateLog;
      if fault.BeforeGroup? {
        return Err(fault.error);
      }
      var normalized := NormalizeInPasses(rules, item.message);
      var fingerprint: Option<Digest> := None;
      var groupId: Option<nat> := None;
      if ShouldGroup(item.level) {
        fingerprint := Some(GenerateFingerprint(rules, FingerprintInput(
          item.service, normalized, item.exceptionType, item.stackTrace)));
        var id := groups.Upsert(
          GroupKey(item.service, item.environment, fingerprint.value),
          GroupTitle(item.exceptionType, normalized), item.exceptionType, item.timestamp,
          SeverityForLevel(item.level));
        groupId := Some(id);
      }
      if fault.AfterGroup? {
        return Err(fault.error);
      }
      var log := logs.Create(item, normalized, fingerprint, groupId, origin, now);
      if fault.AfterLog? {
        return Err(fault.error);
      }
      return Ok(log);
    }

    method Ingest(item: Item, now: int, fault: Fault) returns (result: Result<Log, string>)
      requires Valid() && session.Idle()
      modifies session
      ensures session.Idle()
      ensures (session.committed, result) == IngestLog(rules, old(session.committed), item, now, fault)
    {
      result := Persist(item, Single, now, fault);
      if result.Ok? {
        session.Commit();
      } else {
        session.Rollback();
      }
    }

    method Delete(id: nat) returns (found: bool)
      requires Valid() && session.Idle()
      modifies session
      ensures session.Idle() && (session.committed, found) == DeleteLog(old(session.committed), id)
    {
      var i := FindLog(session.working.logs, id);
      if i.None? {
        return false;
      }
      logs.Remove(i.value);
      session.Commit();
      return true;
    }
  }
}
