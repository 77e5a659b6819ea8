/** Runs of the log service and its workers: requests and task deliveries, one at a time, over the
    committed database. */
module Service {
  import opened Prelude
  import opened Fingerprint
  import opened Tables
  import opened Logs
  import opened Jobs
  import BulkIngestion
  import AnalysisJobs
  import Cleanup

  datatype Step =
    | Ingest(item: Item, now: int, fault: Fault)
    | SubmitBulk(key: Option<string>, logs: seq<Item>, id: string)
    | DeliverBulk(jobId: string, weather: BulkIngestion.Weather, stop: nat)
    | RequestAnalysis(groupId: nat, requestedBy: nat, id: string)
    | DeliverAnalysis(jobId: string, provided: bool, clock: nat -> int, stop: nat)
    | Delete(logId: nat)
    | CleanUp(threshold: int, batch: nat, stop: nat)

  function Apply(rules: Rules, db: Db, step: Step): Db {
    match step
    case Ingest(item, now, fault) => IngestLog(rules, db, item, now, fault).0
    case SubmitBulk(key, logs, id) => BulkIngestion.Submit(db, key, logs, id).0
    case DeliverBulk(jobId, weather, stop) => BulkIngestion.Deliver(rules, db, jobId, weather, stop)
    case RequestAnalysis(groupId, requestedBy, id) =>
      AnalysisJobs.RequestAnalysis(db, groupId, requestedBy, id).0
    case DeliverAnalysis(jobId, provided, clock, stop) =>
      AnalysisJobs.Deliver(db, jobId, provided, clock, stop)
    case Delete(logId) => DeleteLog(db, logId).0
    case CleanUp(threshold, batch, stop) =>
      db.(logs := Cleanup.Swept(db.logs, threshold, batch, stop))
  }

  predicate JobHasType(db: Db, jobId: string, jobType: JobType) {
    var i := FindJob(db.jobs, jobId);
    i.Some? ==> db.jobs[i.value].jobType == jobType
  }

  /** Each task is queued with the id of a job of its own type. */
  predicate Legal(db: Db, step: Step) {
    match step
    case DeliverBulk(jobId, _, _) => JobHasType(db, jobId, BulkLogIngest)
    case DeliverAnalysis(jobId, _, _, _) => JobHasType(db, jobId, ErrorGroupAnalysis)
    case _ => true
  }

  function Run(rules: Rules, db: Db, steps: seq<Step>): Db
    decreases |steps|
  {
    if steps == [] then db else Run(rules, Apply(rules, db, steps[0]), steps[1..])
  }

  predicate LegalRun(rules: Rules, db: Db, steps: seq<Step>)
    decreases |steps|
  {
    steps != [] ==> Legal(db, steps[0]) && LegalRun(rules, Apply(rules, db, steps[0]), steps[1..])
  }
}
