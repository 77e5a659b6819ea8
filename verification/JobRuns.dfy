/** What every run keeps of the job table: the unique indexes hold without ever being hit by a new
    job, each row's counters add up, and its batch never changes. */
module JobRuns {
  import opened Prelude
  import opened Fingerprint
  import opened Tables
  import opened Jobs
  import opened BulkIngestion
  import AnalysisJobs
  import opened Service

  /** The two rows break the primary key or one of the unique indexes. */
  predicate Clash(a: Job, b: Job) {
    a.id == b.id || SameActiveScope(a, b) || SameIdempotencyKey(a, b)
  }

  ghost predicate Indexed(jobs: seq<Job>) {
    forall i, j | 0 <= i < j < |jobs| :: !Clash(jobs[i], jobs[j])
  }

  predicate BulkOk(job: Job) {
    && job.payload.BulkPayload? && job.payload.logs != [] && |job.payload.logs| == job.total
    && job.payload.requestHash == RequestHash(job.payload.logs) && job.scopeKey.None?
    && job.processed == job.success + job.failure <= job.total
    && |job.payload.failures| == job.failure
    && job.status != Failed
    && (Finished(job) ==> job.processed == job.total && (job.status == Completed <==> job.failure == 0))
    && (Finished(job) <==> job.completedAt.Some?) && (job.startedAt.None? <==> job.status == Pending)
    && job.errorSummary == if Finished(job) && job.failure > 0 then Some(ItemsFailed(job.failure)) else None
  }

  predicate AnalysisOk(job: Job) {
    && job.payload.AnalysisPayload? && job.idempotencyKey.None? && job.total == 1
    && job.scopeKey == Some(AnalysisJobs.ScopeOf(job.payload.groupId))
    && job.processed == job.success + job.failure <= 1
    && job.status != PartiallyCompleted && (job.status == Completed ==> job.success == 1)
    && (job.startedAt.None? <==> job.status == Pending) && (!Active(job) ==> job.completedAt.Some?)
    && (job.status == Completed ==> job.errorSummary.None?)
    && (job.status == Failed ==> job.errorSummary == Some(AnalysisFailed) || job.errorSummary == Some(GroupNotFound))
  }

  predicate JobOk(job: Job) {
    match job.jobType
    case BulkLogIngest => BulkOk(job)
    case ErrorGroupAnalysis => AnalysisOk(job)
  }

  ghost predicate JobInv(jobs: seq<Job>) {
    Indexed(jobs) && forall i | 0 <= i < |jobs| :: JobOk(jobs[i])
  }

  /** What no step changes of a job: its identity, its keys, and its batch or group. */
  predicate SameRequest(a: Job, b: Job) {
    && a.id == b.id && a.jobType == b.jobType && a.total == b.total
    && a.idempotencyKey == b.idempotencyKey && a.scopeKey == b.scopeKey
    && a.payload.BulkPayload? == b.payload.BulkPayload?
    && if a.payload.BulkPayload? then
         a.payload.logs == b.payload.logs && a.payload.requestHash == b.payload.requestHash
       else a.payload == b.payload
  }

  /** Rows stay in place, keep their requests and the time they first started, and a finished row
      never changes again. */
  ghost predicate JobsContinue(before: seq<Job>, after: seq<Job>) {
    && |before| <= |after|
    && forall i | 0 <= i < |before| ::
         SameRequest(before[i], after[i]) && (Finished(before[i]) ==> after[i] == before[i])
         && (before[i].startedAt.Some? ==> after[i].startedAt == before[i].startedAt)
  }

  lemma ReplacingKeepsJobs(jobs: seq<Job>, i: nat, job: Job)
    requires JobInv(jobs) && i < |jobs| && SameRequest(jobs[i], job) && JobOk(job) && !Finished(jobs[i])
    requires Active(job) ==> Active(jobs[i]) || !Refused(jobs, job, i)
    requires jobs[i].startedAt.Some? ==> job.startedAt == jobs[i].startedAt
    ensures JobInv(jobs[i := job]) && JobsContinue(jobs, jobs[i := job])
  {
    hide JobOk;
    var after := jobs[i := job];
    forall a, b | 0 <= a < b < |after| ensures !Clash(after[a], after[b]) {
      assert !Clash(jobs[a], jobs[b]);
    }
  }

  // ----- Creating jobs -----

  lemma AppendingKeepsJobs(jobs: seq<Job>, job: Job)
    requires JobInv(jobs) && JobOk(job) && !Refused(jobs, job, -1)
    ensures JobInv(jobs + [job]) && JobsContinue(jobs, jobs + [job])
  {
    hide JobOk;
  }

  /** A request for a new job is refused by the service before the database would have to: with an
      unused id, no unique index is ever hit. */
  lemma CreationNeverHitsAnIndex(db: Db, job: NewJob, id: string)
    requires FindJob(db.jobs, id).None?
    ensures CreateJob(db, job, id).1 != Err(IntegrityError)
  {
  }

  lemma CreationKeepsJobs(db: Db, job: NewJob, id: string)
    requires JobInv(db.jobs) && JobOk(JobRow(job, id))
    ensures JobInv(CreateJob(db, job, id).0.jobs) && JobsContinue(db.jobs, CreateJob(db, job, id).0.jobs)
  {
    hide JobOk;
    var row := JobRow(job, id);
    if CreateJob(db, job, id).0.jobs != db.jobs {
      AppendingKeepsJobs(db.jobs, row);
    }
  }

  // ----- Deliveries -----

  /** A job without a scope restarts unhindered: only its own row holds its id and key. */
  lemma ScopelessRestarts(jobs: seq<Job>, i: nat, now: int)
    requires Indexed(jobs) && i < |jobs| && jobs[i].scopeKey.None?
    ensures !Refused(jobs, MarkedRunning(jobs[i], now), i)
  {
    var running := MarkedRunning(jobs[i], now);
    forall k | 0 <= k < |jobs| && k != i ensures !Clash(jobs[k], running) {
      assert if k < i then !Clash(jobs[k], jobs[i]) else !Clash(jobs[i], jobs[k]);
    }
  }

  lemma {:induction false} CountsAddUp(weather: Weather, n: nat)
    ensures Successes(weather, n) + |Failures(weather, n)| == n
  {
    if n > 0 {
      CountsAddUp(weather, n - 1);
    }
  }

  /** How many items a delivery commits. */
  function ItemsDone(total: nat, stop: nat): nat {
    if stop == 0 then 0 else if stop <= total + 1 then stop - 1 else total
  }

  /** The row a delivery leaves: running, then with the progress of its last item, then ended. */
  function DeliveredRow(job: Job, weather: Weather, stop: nat): Job
    requires job.payload.BulkPayload?
  {
    if stop == 0 then job
    else
      var running, total := MarkedRunning(job, weather.clock(0)), |job.payload.logs|;
      var n := ItemsDone(total, stop);
      var progressed := if n == 0 then running else ProgressRow(running, weather, n);
      if stop <= total + 1 then progressed else EndRow(progressed, weather, weather.clock(total + 1))
  }

  lemma BulkDelivery(rules: Rules, db: Db, i: nat, weather: Weather, stop: nat)
    requires JobInv(db.jobs) && i < |db.jobs| && db.jobs[i].jobType == BulkLogIngest && !Finished(db.jobs[i])
    ensures FindJob(db.jobs, db.jobs[i].id) == Some(i)
    ensures
      var db' := Deliver(rules, db, db.jobs[i].id, weather, stop);
      && db'.jobs == db.jobs[i := DeliveredRow(db.jobs[i], weather, stop)]
      && db'.analyses == db.analyses
      && db'.history
         == if stop == 0 then db.history
            else Prefix(rules, SetJob(db, i, MarkedRunning(db.jobs[i], weather.clock(0))), i, weather,
                        ItemsDone(db.jobs[i].total, stop)).history
  {
    hide ItemCommitted, EndRow, ProgressRow;
    var job := db.jobs[i];
    assert JobOk(job);
    FindsOwnRow(db.jobs, i);
    ScopelessRestarts(db.jobs, i, weather.clock(0));
    if stop > 0 {
      var started := SetJob(db, i, MarkedRunning(job, weather.clock(0)));
      var done := Prefix(rules, started, i, weather, ItemsDone(job.total, stop));
      assert ItemsDone(job.total, stop) == 0 ==> done == started;
    }
  }

  lemma FindsOwnRow(jobs: seq<Job>, i: nat)
    requires Indexed(jobs) && i < |jobs|
    ensures FindJob(jobs, jobs[i].id) == Some(i)
  {
    var found := FindJob(jobs, jobs[i].id);
    assert found.Some?;
    assert found.value < i ==> Clash(jobs[found.value], jobs[i]);
    assert i < found.value ==> Clash(jobs[i], jobs[found.value]);
  }

  lemma DeliveredRowIsOk(job: Job, weather: Weather, stop: nat)
    requires BulkOk(job) && job.jobType == BulkLogIngest && !Finished(job)
    ensures SameRequest(job, DeliveredRow(job, weather, stop)) && BulkOk(DeliveredRow(job, weather, stop))
    ensures job.startedAt.Some? ==> DeliveredRow(job, weather, stop).startedAt == job.startedAt
    ensures Active(job)
    ensures stop > job.total + 1 ==>
              var row := DeliveredRow(job, weather, stop);
              Finished(row) && (row.status == Completed <==> Failures(weather, job.total) == [])
              && row.success == Successes(weather, job.total)
    ensures stop <= job.total + 1 ==> Active(DeliveredRow(job, weather, stop))
  {
    CountsAddUp(weather, ItemsDone(job.total, stop));
  }

  lemma BulkDeliveryKeepsJobs(rules: Rules, db: Db, jobId: string, weather: Weather, stop: nat)
    requires JobInv(db.jobs) && JobHasType(db, jobId, BulkLogIngest)
    ensures JobInv(Deliver(rules, db, jobId, weather, stop).jobs)
    ensures JobsContinue(db.jobs, Deliver(rules, db, jobId, weather, stop).jobs)
  {
    var found := FindJob(db.jobs, jobId);
    if found.Some? && !Finished(db.jobs[found.value]) {
      var i := found.value;
      assert JobOk(db.jobs[i]);
      BulkDelivery(rules, db, i, weather, stop);
      DeliveredRowIsOk(db.jobs[i], weather, stop);
      hide Deliver, DeliveredRow, BulkOk;
      ReplacingKeepsJobs(db.jobs, i, DeliveredRow(db.jobs[i], weather, stop));
    }
  }

  /** A delivery of an analysis job changes at most its own row, and keeps that row in order. */
  lemma AnalysisDeliveryRewritesRow(db: Db, i: nat, jobId: string, provided: bool, clock: nat -> int, stop: nat)
    requires FindJob(db.jobs, jobId) == Some(i) && i < |db.jobs| && AnalysisOk(db.jobs[i])
    requires db.jobs[i].jobType == ErrorGroupAnalysis && !Finished(db.jobs[i])
    ensures
      var after := AnalysisJobs.Deliver(db, jobId, provided, clock, stop).jobs;
      after == db.jobs
      || (|after| == |db.jobs| && after == db.jobs[i := after[i]]
          && SameRequest(db.jobs[i], after[i]) && AnalysisOk(after[i])
          && (db.jobs[i].startedAt.Some? ==> after[i].startedAt == db.jobs[i].startedAt)
          && (Active(after[i]) ==> !Refused(db.jobs, after[i], i)))
  {
    hide FindJob, Refused, AnalysisJobs.HasGroup, AnalysisJobs.LatestFor, AnalysisJobs.ScopeOf;
    var running := MarkedRunning(db.jobs[i], clock(0));
    assert SameRequest(db.jobs[i], running) && AnalysisOk(running);
  }

  lemma AnalysisDeliveryKeepsJobs(db: Db, jobId: string, provided: bool, clock: nat -> int, stop: nat)
    requires JobInv(db.jobs) && JobHasType(db, jobId, ErrorGroupAnalysis)
    ensures JobInv(AnalysisJobs.Deliver(db, jobId, provided, clock, stop).jobs)
    ensures JobsContinue(db.jobs, AnalysisJobs.Deliver(db, jobId, provided, clock, stop).jobs)
  {
    var found := FindJob(db.jobs, jobId);
    if found.Some? && !Finished(db.jobs[found.value]) {
      var i, after := found.value, AnalysisJobs.Deliver(db, jobId, provided, clock, stop).jobs;
      assert JobOk(db.jobs[i]);
      AnalysisDeliveryRewritesRow(db, i, jobId, provided, clock, stop);
      hide AnalysisJobs.Deliver, AnalysisOk, Refused;
      if after != db.jobs {
        ReplacingKeepsJobs(db.jobs, i, after[i]);
      }
    }
  }

  lemma StepKeepsJobs(rules: Rules, db: Db, step: Step)
    requires JobInv(db.jobs) && Legal(db, step)
    ensures JobInv(Apply(rules, db, step).jobs) && JobsContinue(db.jobs, Apply(rules, db, step).jobs)
  {
    hide Deliver, AnalysisJobs.Deliver, CreateJob, Indexed;
    match step
    case Ingest(item, now, fault) => PersistKeepsJobs(rules, db, item, Single, now, fault);
    case SubmitBulk(key, logs, id) =>
      if logs != [] {
        CreationKeepsJobs(db, BatchJob(key, logs), id);
      }
    case DeliverBulk(jobId, weather, stop) => BulkDeliveryKeepsJobs(rules, db, jobId, weather, stop);
    case RequestAnalysis(groupId, requestedBy, id) =>
      if AnalysisJobs.HasGroup(db.groups, groupId) {
        CreationKeepsJobs(db, AnalysisJobs.AnalysisJob(groupId, requestedBy), id);
      }
    case DeliverAnalysis(jobId, provided, clock, stop) =>
      AnalysisDeliveryKeepsJobs(db, jobId, provided, clock, stop);
    case Delete(_) =>
    case CleanUp(_, _, _) =>
  }

  /** Over every run: at most one pending or running job per type and scope, at most one job per
      type and idempotency key, counters that add up, and batches that never change. */
  lemma {:induction false} RunKeepsJobs(rules: Rules, db: Db, steps: seq<Step>)
    requires JobInv(db.jobs) && LegalRun(rules, db, steps)
    ensures JobInv(Run(rules, db, steps).jobs) && JobsContinue(db.jobs, Run(rules, db, steps).jobs)
    decreases |steps|
  {
    if steps != [] {
      StepKeepsJobs(rules, db, steps[0]);
      RunKeepsJobs(rules, Apply(rules, db, steps[0]), steps[1..]);
      ContinueAll(db.jobs, Apply(rules, db, steps[0]).jobs, Run(rules, db, steps).jobs);
    }
  }

  /** The unique indexes, over every run from an empty database: among pending and running jobs of one
      type no two share a scope, and no two jobs of one type share an idempotency key, nor any two an id. */
  lemma JobsStayUnique(rules: Rules, steps: seq<Step>, i: nat, j: nat)
    requires LegalRun(rules, EMPTY, steps) && i < |Run(rules, EMPTY, steps).jobs|
    requires j < |Run(rules, EMPTY, steps).jobs| && i != j
    ensures
      var a, b := Run(rules, EMPTY, steps).jobs[i], Run(rules, EMPTY, steps).jobs[j];
      && a.id != b.id
      && !(a.jobType == b.jobType && a.idempotencyKey.Some? && a.idempotencyKey == b.idempotencyKey)
      && !(a.jobType == b.jobType && a.scopeKey.Some? && a.scopeKey == b.scopeKey
           && (a.status == Pending || a.status == Running) && (b.status == Pending || b.status == Running))
  {
    RunKeepsJobs(rules, EMPTY, steps);
    var jobs := Run(rules, EMPTY, steps).jobs;
    assert if i < j then !Clash(jobs[i], jobs[j]) else !Clash(jobs[j], jobs[i]);
  }

  lemma ContinueAll(a: seq<Job>, b: seq<Job>, c: seq<Job>)
    requires JobsContinue(a, b) && JobsContinue(b, c)
    ensures JobsContinue(a, c)
  {
  }
}
