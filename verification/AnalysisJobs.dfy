/** Error group analysis jobs: requesting one, and the worker's run with its two commits
    (app/services/analysis.py, app/workers/tasks/analysis_tasks.py). */
module AnalysisJobs {
  import opened Prelude
  import opened Numerals
  import opened Database
  import opened Tables
  import opened Jobs

  function ScopeOf(groupId: nat): string {
    "error-group:" + Decimal(groupId) + ":analysis"
  }

  /** Two groups never share a scope. */
  lemma ScopesDiffer(m: nat, n: nat)
    requires ScopeOf(m) == ScopeOf(n)
    ensures m == n
  {
    var s, t := ScopeOf(m), ScopeOf(n);
    assert |s| == 21 + |Decimal(m)| && |t| == 21 + |Decimal(n)|;
    assert s[12..|s| - 9] == Decimal(m) && t[12..|t| - 9] == Decimal(n);
    DecimalInjective(m, n);
  }

  predicate HasGroup(groups: seq<Group>, groupId: nat) {
    exists k | 0 <= k < |groups| :: groups[k].id == groupId
  }

  datatype RequestError = NotFound | Rejected(error: JobError)

  function AnalysisJob(groupId: nat, requestedBy: nat): NewJob {
    NewJob(ErrorGroupAnalysis, AnalysisPayload(groupId, requestedBy), 1, None, Some(ScopeOf(groupId)))
  }

  function RequestAnalysis(db: Db, groupId: nat, requestedBy: nat, id: string): (Db, Result<string, RequestError>) {
    if !HasGroup(db.groups, groupId) then (db, Err(NotFound))
    else
      var (db', result) := CreateJob(db, AnalysisJob(groupId, requestedBy), id);
      (db', match result case Ok(jobId) => Ok(jobId) case Err(e) => Err(Rejected(e)))
  }

  /** The latest analysis of a group: analyses are kept in creation order. */
  function LatestFor(analyses: seq<Analysis>, groupId: nat): (r: Option<nat>)
    ensures r.Some? ==> r.value < |analyses| && analyses[r.value].groupId == groupId
                        && forall k | r.value < k < |analyses| :: analyses[k].groupId != groupId
    ensures r.None? ==> forall k | 0 <= k < |analyses| :: analyses[k].groupId != groupId
  {
    var last := |analyses| - 1;
    if analyses == [] then None
    else if analyses[last].groupId == groupId then Some(last)
    else LatestFor(analyses[..last], groupId)
  }

  /** The second commit: the provider's answer, or its failure. */
  function Settled(db: Db, i: nat, provided: bool, now: int): Db
    requires i < |db.jobs| && db.jobs[i].payload.AnalysisPayload?
    requires LatestFor(db.analyses, db.jobs[i].payload.groupId).Some?
  {
    var job := db.jobs[i];
    var latest := LatestFor(db.analyses, job.payload.groupId).value;
    var status := if provided then AnalysisCompleted else AnalysisUnsuccessful;
    var counted := Progressed(job, 1, if provided then 1 else 0, if provided then 0 else 1, job.payload);
    var ended := if provided then MarkedCompleted(counted, Completed, now, None)
                 else MarkedCompleted(counted, Failed, now, Some(AnalysisFailed));
    SetJob(db, i, ended).(analyses := db.analyses[latest := db.analyses[latest].(status := status)])
  }

  /** A delivery that is killed after `stop` commits, if it needs more than that. A job whose
      restart the active-scope index refuses, or without a group id, aborts before any commit. */
  function Deliver(db: Db, jobId: string, provided: bool, clock: nat -> int, stop: nat): Db {
    match FindJob(db.jobs, jobId)
    case None => db
    case Some(i) =>
      if Finished(db.jobs[i]) then db
      else
        var running := MarkedRunning(db.jobs[i], clock(0));
        if Refused(db.jobs, running, i) || stop == 0 || !running.payload.AnalysisPayload? then db
        else
          var groupId := running.payload.groupId;
          if !HasGroup(db.groups, groupId) then
            SetJob(db, i, MarkedCompleted(running, Failed, clock(0), Some(GroupNotFound)))
          else
            var pending := Analysis(groupId, AnalysisPending, running.payload.requestedBy);
            var started := SetJob(db, i, running).(analyses := db.analyses + [pending]);
            if stop == 1 then started else Settled(started, i, provided, clock(1))
  }

  class AnalysisWorker {
    const session: Session<Db>
    const jobs: BackgroundJobRepository

    constructor (session: Session<Db>)
      ensures this.session == session && Valid()
    {
      this.session := session;
      this.jobs := new BackgroundJobRepository(session);
    }

    ghost predicate Valid() {
      jobs.session == session
    }

    method Process(jobId: string, provided: bool, clock: nat -> int, stop: nat)
      requires Valid() && session.Idle()
      modifies session
      ensures session.Idle()
      ensures session.committed == Deliver(old(session.committed), jobId, provided, clock, stop)
    {
      var found := FindJob(session.working.jobs, jobId);
      if found.None? || Finished(session.working.jobs[found.value]) {
        return;
      }
      var i := found.value;
      var accepted := jobs.MarkRunning(i, clock(0));
      if !accepted || stop == 0 || !session.working.jobs[i].payload.AnalysisPayload? {
        session.Rollback();
        return;
      }
      var job := session.working.jobs[i];
      var groupId := job.payload.groupId;
      if !HasGroup(session.working.groups, groupId) {
        jobs.Save(i, MarkedCompleted(job, Failed, clock(0), Some(GroupNotFound)));
        session.Commit();
        return;
      }
      session.working := session.working.(
        analyses := session.working.analyses + [Analysis(groupId, AnalysisPending, job.payload.requestedBy)]);
      session.Commit();
      if stop == 1 {
        return;
      }
      var latest := LatestFor(session.working.analyses, groupId).value;
      var analysis := session.working.analyses[latest];
      if provided {
        session.working := session.working.(
          analyses := session.working.analyses[latest := analysis.(status := AnalysisCompleted)]);
        job := Progressed(job, 1, 1, 0, job.payload);
        jobs.Save(i, MarkedCompleted(job, Completed, clock(1), None));
      } else {
        session.working := session.working.(
          analyses := session.working.analyses[latest := analysis.(status := AnalysisUnsuccessful)]);
        job := Progressed(job, 1, 0, 1, job.payload);
        jobs.Save(i, MarkedCompleted(job, Failed, clock(1), Some(AnalysisFailed)));
      }
      session.Commit();
    }
  }
}
