/** Bulk ingestion: submitting a batch and the worker's per-item commit loop
    (app/services/logs.py:118-151, app/workers/tasks/log_tasks.py). A delivery may be killed
    between any two commits; the broker then delivers the job again. */
module BulkIngestion {
  import opened Prelude
  import opened Database
  import opened Fingerprint
  import opened Tables
  import opened Logs
  import opened Jobs

  function BatchJob(key: Option<string>, logs: seq<Item>): NewJob {
    NewJob(BulkLogIngest, BulkPayload(RequestHash(logs), logs, []), |logs|, key, None)
  }

  /** `enqueue_bulk_ingestion_job`; a batch without logs does not pass validation. */
  function Submit(db: Db, key: Option<string>, logs: seq<Item>, id: string): (Db, Result<string, JobError>) {
    if logs == [] then (db, Err(ValidationError))
    else CreateJob(db, BatchJob(key, logs), id)
  }

  /** What one delivery meets: per item, where inserting it fails, and the clock at its commits. */
  datatype Weather = Weather(faults: nat -> Fault, clock: nat -> int)

  function ErrorOf(fault: Fault): string {
    if fault.NoFault? then "" else fault.error
  }

  /** The failures recorded among the first `n` items. */
  function Failures(weather: Weather, n: nat): seq<ItemFailure> {
    if n == 0 then []
    else if weather.faults(n - 1).NoFault? then Failures(weather, n - 1)
    else Failures(weather, n - 1) + [ItemFailure(n - 1, Cut(ErrorOf(weather.faults(n - 1)), 200))]
  }

  /** How many of the first `n` items are inserted. */
  function Successes(weather: Weather, n: nat): nat {
    if n == 0 then 0
    else Successes(weather, n - 1) + if weather.faults(n - 1).NoFault? then 1 else 0
  }

  /** The job row after the progress of `n` items is written. */
  function ProgressRow(job: Job, weather: Weather, n: nat): Job
    requires job.payload.BulkPayload?
  {
    Progressed(job, n, Successes(weather, n), |Failures(weather, n)|,
               job.payload.(failures := Failures(weather, n)))
  }

  /** One turn of the loop: item `n` under a savepoint, then progress, in one commit. */
  function ItemCommitted(rules: Rules, db: Db, i: nat, item: Item, weather: Weather, n: nat): Db
    requires i < |db.jobs| && db.jobs[i].payload.BulkPayload?
    ensures |ItemCommitted(rules, db, i, item, weather, n).jobs| == |db.jobs|
  {
    var origin, now, fault := Bulk(db.jobs[i].id), weather.clock(n + 1), weather.faults(n);
    var (persisted, result) := PersistLog(rules, db, item, origin, now, fault);
    var kept := if result.Ok? then persisted else db;
    PersistKeepsJobs(rules, db, item, origin, now, fault);
    SetJob(kept, i, ProgressRow(kept.jobs[i], weather, n + 1))
  }

  lemma PersistKeepsJobs(rules: Rules, db: Db, item: Item, origin: Origin, now: int, fault: Fault)
    ensures PersistLog(rules, db, item, origin, now, fault).0.jobs == db.jobs
    ensures PersistLog(rules, db, item, origin, now, fault).0.analyses == db.analyses
  {
  }

  /** An insertion fails exactly when it meets a fault, with that fault's error. */
  lemma PersistOutcome(rules: Rules, db: Db, item: Item, origin: Origin, now: int, fault: Fault)
    ensures PersistLog(rules, db, item, origin, now, fault).1.Ok? <==> fault.NoFault?
    ensures !fault.NoFault? ==> PersistLog(rules, db, item, origin, now, fault).1 == Err(ErrorOf(fault))
  {
  }

  /** The committed database after the first `n` items. */
  function Prefix(rules: Rules, db: Db, i: nat, weather: Weather, n: nat): (r: Db)
    requires i < |db.jobs| && db.jobs[i].payload.BulkPayload? && n <= |db.jobs[i].payload.logs|
    ensures |r.jobs| == |db.jobs| && r.analyses == db.analyses
    ensures n > 0 ==> r.jobs == db.jobs[i := ProgressRow(db.jobs[i], weather, n)]
    ensures n == 0 ==> r == db
  {
    if n == 0 then db
    else
      var before := Prefix(rules, db, i, weather, n - 1);
      assert before.jobs[i].payload.logs == db.jobs[i].payload.logs && before.jobs[i].id == db.jobs[i].id;
      var item := db.jobs[i].payload.logs[n - 1];
      PersistKeepsJobs(rules, before, item, Bulk(db.jobs[i].id), weather.clock(n), weather.faults(n - 1));
      ItemCommitted(rules, before, i, item, weather, n - 1)
  }

  lemma NextPrefix(rules: Rules, db: Db, i: nat, weather: Weather, n: nat)
    requires i < |db.jobs| && db.jobs[i].payload.BulkPayload? && n < |db.jobs[i].payload.logs|
    ensures
      var before := Prefix(rules, db, i, weather, n);
      before.jobs[i].payload.BulkPayload? && before.jobs[i].payload.logs == db.jobs[i].payload.logs
      && Prefix(rules, db, i, weather, n + 1)
         == ItemCommitted(rules, before, i, db.jobs[i].payload.logs[n], weather, n)
  {
  }

  function EndStatus(logs: nat, success: nat, failure: nat): JobStatus {
    var status := FinalStatus(success, failure);
    if status == Failed then (if logs > 0 then PartiallyCompleted else Failed) else status
  }

  function EndRow(job: Job, weather: Weather, now: int): Job
    requires job.payload.BulkPayload?
  {
    var n := |job.payload.logs|;
    var failed := |Failures(weather, n)|;
    MarkedCompleted(job, EndStatus(n, Successes(weather, n), failed), now,
                    if failed == 0 then None else Some(ItemsFailed(failed)))
  }

  /** A delivery that is killed after `stop` commits, if it needs more than that. */
  function Deliver(rules: Rules, db: Db, jobId: string, weather: Weather, stop: nat): Db {
    match FindJob(db.jobs, jobId)
    case None => db
    case Some(i) =>
      if Finished(db.jobs[i]) then db
      else
        var running := MarkedRunning(db.jobs[i], weather.clock(0));
        if Refused(db.jobs, running, i) || stop == 0 then db
        else
          var started := SetJob(db, i, running);
          if !running.payload.BulkPayload? || running.payload.logs == [] then started
          else DeliverStarted(rules, started, i, weather, stop)
  }

  function DeliverStarted(rules: Rules, started: Db, i: nat, weather: Weather, stop: nat): Db
    requires 0 < stop && i < |started.jobs| && started.jobs[i].payload.BulkPayload?
  {
    var total := |started.jobs[i].payload.logs|;
    if stop <= total + 1 then Prefix(rules, started, i, weather, stop - 1)
    else
      var done := Prefix(rules, started, i, weather, total);
      SetJob(done, i, EndRow(done.jobs[i], weather, weather.clock(total + 1)))
  }

  class BulkWorker {
    const session: Session<Db>
    const jobs: BackgroundJobRepository
    const service: LogService

    constructor (rules: Rules, session: Session<Db>)
      ensures this.session == session && Valid() && service.rules == rules
    {
      this.session := session;
      this.jobs := new BackgroundJobRepository(session);
      this.service := new LogService(rules, session);
    }

    ghost predicate Valid() {
      jobs.session == session && service.session == session && service.Valid()
    }

    /** A commit, unless the worker is killed first: then what is pending is lost. */
    method CommitOrDie(commits: nat, stop: nat) returns (alive: bool)
      modifies session
      ensures session.Idle() && alive == (commits < stop)
      ensures session.committed == if alive then old(session.working) else old(session.committed)
    {
      alive := commits < stop;
      if alive {
        session.Commit();
      } else {
        session.Rollback();
      }
    }

    /** The body of the loop up to its commit: the item under a savepoint, then the progress. */
    method ProcessItem(i: nat, item: Item, weather: Weather, index: nat, failures: seq<ItemFailure>,
                       successCount: nat) returns (failures': seq<ItemFailure>, successCount': nat)
      requires Valid() && i < |session.working.jobs| && session.working.jobs[i].payload.BulkPayload?
      requires failures == Failures(weather, index) && successCount == Successes(weather, index)
      modifies session`working
      ensures session.working == ItemCommitted(service.rules, old(session.working), i, item, weather, index)
      ensures failures' == Failures(weather, index + 1) && successCount' == Successes(weather, index + 1)
    {
      failures', successCount' := failures, successCount;
      var savepoint := session.working;
      var origin, now, fault := Bulk(savepoint.jobs[i].id), weather.clock(index + 1), weather.faults(index);
      PersistKeepsJobs(service.rules, savepoint, item, origin, now, fault);
      PersistOutcome(service.rules, savepoint, item, origin, now, fault);
      var result := service.Persist(item, origin, now, fault);
      if result.Ok? {
        successCount' := successCount' + 1;
      } else {
        session.working := savepoint;
        failures' := failures' + [ItemFailure(index, Cut(result.error, 200))];
      }
      var job := session.working.jobs[i];
      jobs.Save(i, Progressed(job, index + 1, successCount', |failures'|, job.payload.(failures := failures')));
    }

    method Process(jobId: string, weather: Weather, stop: nat)
      requires Valid() && session.Idle()
      modifies session
      ensures session.Idle()
      ensures session.committed == Deliver(service.rules, old(session.committed), jobId, weather, stop)
    {
      var found := FindJob(session.working.jobs, jobId);
      if found.None? || Finished(session.working.jobs[found.value]) {
        return;
      }
      var i := found.value;
      var accepted := jobs.MarkRunning(i, weather.clock(0));
      if !accepted {
        return;
      }
      var alive := CommitOrDie(0, stop);
      if !alive || !session.working.jobs[i].payload.BulkPayload? || session.working.jobs[i].payload.logs == [] {
        return;
      }
      ProcessStarted(i, weather, stop);
    }

    /** The rest of a delivery once the job is marked as running. */
    method ProcessStarted(i: nat, weather: Weather, stop: nat)
      requires Valid() && session.Idle() && 0 < stop && i < |session.committed.jobs|
      requires session.committed.jobs[i].payload.BulkPayload? && session.committed.jobs[i].payload.logs != []
      modifies session
      ensures session.Idle()
      ensures session.committed == DeliverStarted(service.rules, old(session.committed), i, weather, stop)
    {
      hide ItemCommitted, Prefix, FinalStatus, Refused;
      ghost var started := session.committed;
      var logs := session.working.jobs[i].payload.logs;
      var failures: seq<ItemFailure> := [];
      var successCount := 0;
      for index := 0 to |logs|
        invariant session.Idle() && session.committed == Prefix(service.rules, started, i, weather, index)
        invariant failures == Failures(weather, index) && successCount == Successes(weather, index)
        invariant index < stop
      {
        NextPrefix(service.rules, started, i, weather, index);
        failures, successCount := ProcessItem(i, logs[index], weather, index, failures, successCount);
        var alive := CommitOrDie(index + 1, stop);
        if !alive {
          return;
        }
      }
      var finalStatus := FinalStatus(successCount, |failures|);
      if finalStatus == Failed {
        finalStatus := if logs != [] then PartiallyCompleted else Failed;
      }
      jobs.Save(i, MarkedCompleted(session.working.jobs[i], finalStatus, weather.clock(|logs| + 1),
                                   if failures == [] then None else Some(ItemsFailed(|failures|))));
      var alive := CommitOrDie(|logs| + 1, stop);
    }
  }
}
