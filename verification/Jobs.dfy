/** Background jobs: the repository's row changes and the creation of jobs under idempotency keys
    and scope locks (app/repositories/background_job.py, app/services/jobs.py). */
module Jobs {
  import opened Prelude
  import opened Database
  import opened Tables

  datatype JobError = Conflict | IntegrityError | ValidationError

  datatype NewJob = NewJob(
    jobType: JobType, payload: Payload, total: nat, idempotencyKey: Option<string>, scopeKey: Option<string>)

  predicate Active(job: Job) {
    job.status == Pending || job.status == Running
  }

  /** A delivery of such a job returns at once. */
  predicate Finished(job: Job) {
    job.status == Completed || job.status == PartiallyCompleted
  }

  function FindJob(jobs: seq<Job>, id: string): (r: Option<nat>)
    ensures r.Some? ==> r.value < |jobs| && jobs[r.value].id == id
    ensures r.None? ==> forall k | 0 <= k < |jobs| :: jobs[k].id != id
  {
    FirstWhere(jobs, (job: Job) => job.id == id)
  }

  function FindByKey(jobs: seq<Job>, jobType: JobType, key: string): (r: Option<nat>)
    ensures r.Some? ==> r.value < |jobs| && jobs[r.value].jobType == jobType
                        && jobs[r.value].idempotencyKey == Some(key)
    ensures r.None? ==> forall k | 0 <= k < |jobs| ::
                          !(jobs[k].jobType == jobType && jobs[k].idempotencyKey == Some(key))
  {
    FirstWhere(jobs, (job: Job) => job.jobType == jobType && job.idempotencyKey == Some(key))
  }

  function FindActive(jobs: seq<Job>, jobType: JobType, scope: string): (r: Option<nat>)
    ensures r.Some? ==> r.value < |jobs| && Active(jobs[r.value]) && jobs[r.value].jobType == jobType
                        && jobs[r.value].scopeKey == Some(scope)
    ensures r.None? ==> forall k | 0 <= k < |jobs| ::
                          !(Active(jobs[k]) && jobs[k].jobType == jobType && jobs[k].scopeKey == Some(scope))
  {
    FirstWhere(jobs, (job: Job) => Active(job) && job.jobType == jobType && job.scopeKey == Some(scope))
  }

  /** Both rows are in the partial unique index on active scopes, with equal keys. */
  predicate SameActiveScope(a: Job, b: Job) {
    Active(a) && Active(b) && a.jobType == b.jobType && a.scopeKey.Some? && a.scopeKey == b.scopeKey
  }

  /** Both rows are in the partial unique index on idempotency keys, with equal keys. */
  predicate SameIdempotencyKey(a: Job, b: Job) {
    a.jobType == b.jobType && a.idempotencyKey.Some? && a.idempotencyKey == b.idempotencyKey
  }

  /** A unique index or the primary key refuses `job` beside the rows other than `except`. */
  predicate Refused(jobs: seq<Job>, job: Job, except: int) {
    exists k | 0 <= k < |jobs| ::
      k != except && (jobs[k].id == job.id || SameActiveScope(jobs[k], job) || SameIdempotencyKey(jobs[k], job))
  }

  function RequestHashOf(payload: Payload): Option<RequestHash> {
    if payload.BulkPayload? then Some(payload.requestHash) else None
  }

  function JobRow(job: NewJob, id: string): Job {
    Job(id, job.jobType, Pending, job.payload, job.total, 0, 0, 0, job.idempotencyKey, job.scopeKey,
        None, None, None)
  }

  /** `JobService.create_job`: the job now answering for the request. `id` is what `uuid4` gives. */
  function CreateJob(db: Db, job: NewJob, id: string): (Db, Result<string, JobError>) {
    var existing := if job.idempotencyKey.Some?
                    then FindByKey(db.jobs, job.jobType, job.idempotencyKey.value) else None;
    if existing.Some? then
      var stored := RequestHashOf(db.jobs[existing.value].payload);
      var incoming := RequestHashOf(job.payload);
      if stored.Some? && incoming.Some? && stored != incoming then (db, Err(Conflict))
      else (db, Ok(db.jobs[existing.value].id))
    else if job.scopeKey.Some? && FindActive(db.jobs, job.jobType, job.scopeKey.value).Some? then
      (db, Err(Conflict))
    else
      var row := JobRow(job, id);
      if Refused(db.jobs, row, -1) then (db, Err(IntegrityError))
      else (db.(jobs := db.jobs + [row]), Ok(id))
  }

  /** `JobService.final_status`. */
  function FinalStatus(success: nat, failure: nat): JobStatus {
    if failure == 0 then Completed else if success == 0 then Failed else PartiallyCompleted
  }

  function MarkedRunning(job: Job, now: int): Job {
    job.(status := Running, startedAt := if job.startedAt.None? then Some(now) else job.startedAt)
  }

  function Progressed(job: Job, processed: nat, success: nat, failure: nat, payload: Payload): Job {
    job.(processed := processed, success := success, failure := failure, payload := payload)
  }

  function MarkedCompleted(job: Job, status: JobStatus, now: int, summary: Option<Summary>): Job {
    job.(status := status, completedAt := Some(now), errorSummary := summary)
  }

  function SetJob(db: Db, i: nat, job: Job): Db
    requires i < |db.jobs|
  {
    db.(jobs := db.jobs[i := job])
  }

  class BackgroundJobRepository {
    const session: Session<Db>

    constructor (session: Session<Db>)
      ensures this.session == session
    {
      this.session := session;
    }

    /** The flush at the end of each change runs into the unique indexes. */
    method Flush(i: nat, job: Job) returns (accepted: bool)
      requires i < |session.working.jobs|
      modifies session`working
      ensures accepted == !Refused(old(session.working).jobs, job, i)
      ensures session.working == if accepted then SetJob(old(session.working), i, job) else old(session.working)
    {
      accepted := !Refused(session.working.jobs, job, i);
      if accepted {
        session.working := SetJob(session.working, i, job);
      }
    }

    method MarkRunning(i: nat, now: int) returns (accepted: bool)
      requires i < |session.working.jobs|
      modifies session`working
      ensures accepted == !Refused(old(session.working).jobs, MarkedRunning(old(session.working).jobs[i], now), i)
      ensures session.working == if accepted
                then SetJob(old(session.working), i, MarkedRunning(old(session.working).jobs[i], now))
                else old(session.working)
    {
      var job := session.working.jobs[i];
      if job.startedAt.None? {
        job := job.(startedAt := Some(now));
      }
      job := job.(status := Running);
      accepted := Flush(i, job);
    }

    /** Progress and completion leave the indexed columns alone, or take the row out of an index. */
    method Save(i: nat, job: Job)
      requires i < |session.working.jobs|
      modifies session`working
      ensures session.working == SetJob(old(session.working), i, job)
    {
      session.working := SetJob(session.working, i, job);
    }
  }

  class JobService {
    const session: Session<Db>

    constructor (session: Session<Db>)
      ensures this.session == session
    {
      this.session := session;
    }

    method Create(job: NewJob, id: string) returns (result: Result<string, JobError>)
      requires session.Idle()
      modifies session
      ensures session.Idle() && (session.committed, result) == CreateJob(old(session.committed), job, id)
    {
      var jobs := session.working.jobs;
      if job.idempotencyKey.Some? {
        var existing := FindByKey(jobs, job.jobType, job.idempotencyKey.value);
        if existing.Some? {
          var existingHash := RequestHashOf(jobs[existing.value].payload);
          var incomingHash := RequestHashOf(job.payload);
          if existingHash.Some? && incomingHash.Some? && existingHash != incomingHash {
            return Err(Conflict);
          }
          return Ok(jobs[existing.value].id);
        }
      }
      if job.scopeKey.Some? {
        var active := FindActive(jobs, job.jobType, job.scopeKey.value);
        if active.Some? {
          return Err(Conflict);
        }
      }
      if Refused(jobs, JobRow(job, id), -1) {
        return Err(IntegrityError);
      }
      session.working := session.working.(jobs := jobs + [JobRow(job, id)]);
      session.Commit();
      return Ok(id);
    }
  }
}
