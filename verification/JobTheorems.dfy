/** Crash consistency and idempotency of bulk ingestion, and the restart of failed analysis jobs. */
module JobTheorems {
  import opened Prelude
  import opened Numerals
  import opened Fingerprint
  import opened Tables
  import opened Logs
  import opened Jobs
  import opened BulkIngestion
  import AnalysisJobs
  import opened Service
  import opened JobRuns

  // ----- What a job has inserted -----

  /** The submissions inserted by one request or job, in order, those deleted since included. */
  function InsertedBy(history: seq<Entry>, origin: Origin): seq<Item> {
    if history == [] then []
    else
      var last := |history| - 1;
      InsertedBy(history[..last], origin)
      + if history[last].origin == origin then [history[last].log.item] else []
  }

  /** The items among the first `n` that meet no fault, in order. */
  function Succeeding(logs: seq<Item>, weather: Weather, n: nat): (r: seq<Item>)
    requires n <= |logs|
    ensures |r| == Successes(weather, n)
  {
    if n == 0 then []
    else Succeeding(logs, weather, n - 1) + if weather.faults(n - 1).NoFault? then [logs[n - 1]] else []
  }

  lemma PersistInserts(rules: Rules, db: Db, item: Item, origin: Origin, now: int, fault: Fault, other: Origin)
    requires fault.NoFault?
    ensures
      var history' := PersistLog(rules, db, item, origin, now, fault).0.history;
      InsertedBy(history', other)
      == InsertedBy(db.history, other) + if other == origin then [item] else []
  {
    var history' := PersistLog(rules, db, item, origin, now, fault).0.history;
    assert |history'| == |db.history| + 1 && history'[..|db.history|] == db.history;
  }

  lemma ItemInserts(rules: Rules, db: Db, i: nat, item: Item, weather: Weather, n: nat, other: Origin)
    requires i < |db.jobs| && db.jobs[i].payload.BulkPayload?
    ensures InsertedBy(ItemCommitted(rules, db, i, item, weather, n).history, other)
            == InsertedBy(db.history, other)
               + if other == Bulk(db.jobs[i].id) && weather.faults(n).NoFault? then [item] else []
  {
    var origin, now, fault := Bulk(db.jobs[i].id), weather.clock(n + 1), weather.faults(n);
    PersistOutcome(rules, db, item, origin, now, fault);
    if fault.NoFault? {
      PersistInserts(rules, db, item, origin, now, fault, other);
    }
    hide PersistLog, InsertedBy;
  }

  /** A succeeding item is stored as submitted, dated by the clock at its own commit. */
  lemma ItemIsStored(rules: Rules, db: Db, i: nat, item: Item, weather: Weather, n: nat)
    requires i < |db.jobs| && db.jobs[i].payload.BulkPayload? && weather.faults(n).NoFault?
    ensures
      var logs := ItemCommitted(rules, db, i, item, weather, n).logs;
      && |logs| == |db.logs| + 1 && logs[..|db.logs|] == db.logs
      && logs[|db.logs|].item == item && logs[|db.logs|].createdAt == weather.clock(n + 1)
      && logs[|db.logs|].id == db.nextLogId
  {
    hide NormalizeCommon, FingerprintOf, GroupTitle;
    PersistOutcome(rules, db, item, Bulk(db.jobs[i].id), weather.clock(n + 1), weather.faults(n));
  }

  lemma {:induction false} PrefixInserts(rules: Rules, db: Db, i: nat, weather: Weather, n: nat, other: Origin)
    requires i < |db.jobs| && db.jobs[i].payload.BulkPayload? && n <= |db.jobs[i].payload.logs|
    ensures InsertedBy(Prefix(rules, db, i, weather, n).history, other)
            == InsertedBy(db.history, other)
               + if other == Bulk(db.jobs[i].id) then Succeeding(db.jobs[i].payload.logs, weather, n) else []
  {
    hide ItemCommitted, InsertedBy;
    if n > 0 {
      var before, item := Prefix(rules, db, i, weather, n - 1), db.jobs[i].payload.logs[n - 1];
      PrefixInserts(rules, db, i, weather, n - 1, other);
      NextPrefix(rules, db, i, weather, n - 1);
      ItemInserts(rules, before, i, item, weather, n - 1, other);
    }
  }

  /** One delivery, killed after any number of commits: it inserts exactly the succeeding items of
      the prefix it got through, in order, and nothing of any other job. From its first item on the
      row counts that prefix, and its successes are the logs this delivery inserted. */
  lemma DeliveryInsertsItsPrefix(rules: Rules, db: Db, i: nat, weather: Weather, stop: nat, other: Origin)
    requires JobInv(db.jobs) && i < |db.jobs| && db.jobs[i].jobType == BulkLogIngest && !Finished(db.jobs[i])
    ensures
      var job, db' := db.jobs[i], Deliver(rules, db, db.jobs[i].id, weather, stop);
      var n := ItemsDone(job.total, stop);
      && n <= |job.payload.logs| == job.total
      && InsertedBy(db'.history, other)
         == InsertedBy(db.history, other)
            + (if other == Bulk(job.id) then Succeeding(job.payload.logs, weather, n) else [])
      && |db'.jobs| == |db.jobs| && SameRequest(job, db'.jobs[i])
      && (n > 0 ==>
            var row := db'.jobs[i];
            row.processed == n == row.success + row.failure <= row.total
            && row.success == |Succeeding(job.payload.logs, weather, n)|
            && row.payload.failures == Failures(weather, n))
  {
    var job := db.jobs[i];
    assert JobOk(job);
    BulkDelivery(rules, db, i, weather, stop);
    DeliveredRowIsOk(job, weather, stop);
    CountsAddUp(weather, ItemsDone(job.total, stop));
    if stop > 0 {
      PrefixInserts(rules, SetJob(db, i, MarkedRunning(job, weather.clock(0))), i, weather,
                    ItemsDone(job.total, stop), other);
    }
    hide Deliver, Prefix;
  }

  /** The failures recorded for the first `n` items are exactly those that raised, in order, each with
      the first 200 characters of its error. */
  ghost predicate RecordsFaults(failures: seq<ItemFailure>, faults: nat -> Fault, n: nat) {
    && (forall i, j | 0 <= i < j < |failures| :: failures[i].index < failures[j].index)
    && (forall i | 0 <= i < |failures| :: failures[i].index < n && Raised(failures[i], faults(failures[i].index)))
    && (forall k: nat | k < n && faults(k) != NoFault :: exists i :: 0 <= i < |failures| && failures[i].index == k)
  }

  predicate Raised(failure: ItemFailure, fault: Fault) {
    match fault
    case NoFault => false
    case BeforeGroup(error) => IsHead(failure.error, error, 200)
    case AfterGroup(error) => IsHead(failure.error, error, 200)
    case AfterLog(error) => IsHead(failure.error, error, 200)
  }

  lemma {:induction false} FailuresRecordFaults(weather: Weather, n: nat)
    ensures RecordsFaults(Failures(weather, n), weather.faults, n)
  {
    if n > 0 {
      FailuresRecordFaults(weather, n - 1);
      var before, after := Failures(weather, n - 1), Failures(weather, n);
      forall k: nat | k < n && weather.faults(k) != NoFault
        ensures exists i :: 0 <= i < |after| && after[i].index == k
      {
        if k < n - 1 {
          var i :| 0 <= i < |before| && before[i].index == k;
          assert after[i].index == k;
        } else {
          assert after[|before|].index == k;
        }
      }
    }
  }

  /** What a delivery has written into the job's row from its first item on. */
  ghost predicate RowAfter(job: Job, row: Job, weather: Weather, stop: nat) {
    && row.payload.BulkPayload? && row.total == job.total
    && RecordsFaults(row.payload.failures, weather.faults, row.processed)
    && row.startedAt == (if job.startedAt.Some? then job.startedAt else Some(weather.clock(0)))
    && row.completedAt == if stop > row.total + 1 then Some(weather.clock(row.total + 1)) else None
  }

  lemma DeliveredRowIsAfter(job: Job, weather: Weather, stop: nat)
    requires BulkOk(job) && !Finished(job) && stop >= 2
    ensures RowAfter(job, DeliveredRow(job, weather, stop), weather, stop)
  {
    FailuresRecordFaults(weather, ItemsDone(job.total, stop));
    hide Failures, Successes, RecordsFaults;
  }

  lemma DeliveredRowRecordsFaults(rules: Rules, db: Db, i: nat, weather: Weather, stop: nat)
    requires JobInv(db.jobs) && i < |db.jobs| && db.jobs[i].jobType == BulkLogIngest && !Finished(db.jobs[i])
    requires stop >= 2
    ensures
      var after := Deliver(rules, db, db.jobs[i].id, weather, stop).jobs;
      |after| == |db.jobs| && RowAfter(db.jobs[i], after[i], weather, stop)
  {
    assert BulkOk(db.jobs[i]) by {
      assert JobOk(db.jobs[i]);
    }
    hide Deliver, Prefix, RowAfter, DeliveredRow, BulkOk, Indexed;
    BulkDelivery(rules, db, i, weather, stop);
    DeliveredRowIsAfter(db.jobs[i], weather, stop);
  }

  // ----- Conservation over whole runs -----

  /** The successes a step's delivery of the job committed, read off the job's row. */
  function Reported(rules: Rules, db: Db, step: Step, jobId: string): nat {
    if step.DeliverBulk? && step.jobId == jobId && step.stop >= 2 then
      var i := FindJob(db.jobs, jobId);
      var after := Apply(rules, db, step).jobs;
      if i.Some? && !Finished(db.jobs[i.value]) && i.value < |after| then after[i.value].success else 0
    else 0
  }

  function SumReported(rules: Rules, db: Db, steps: seq<Step>, jobId: string): nat
    decreases |steps|
  {
    if steps == [] then 0
    else Reported(rules, db, steps[0], jobId) + SumReported(rules, Apply(rules, db, steps[0]), steps[1..], jobId)
  }

  /** Steps other than bulk deliveries insert nothing for a job. */
  lemma OtherStepsInsertNothing(rules: Rules, db: Db, step: Step, jobId: string)
    requires !step.DeliverBulk?
    ensures InsertedBy(Apply(rules, db, step).history, Bulk(jobId)) == InsertedBy(db.history, Bulk(jobId))
  {
    if step.Ingest? {
      PersistOutcome(rules, db, step.item, Single, step.now, step.fault);
      if step.fault.NoFault? {
        PersistInserts(rules, db, step.item, Single, step.now, step.fault, Bulk(jobId));
      }
      hide PersistLog;
      assert InsertedBy(Apply(rules, db, step).history, Bulk(jobId)) == InsertedBy(db.history, Bulk(jobId));
    }
  }

  lemma StepInsertsReported(rules: Rules, db: Db, step: Step, jobId: string)
    requires JobInv(db.jobs) && Legal(db, step)
    ensures |InsertedBy(Apply(rules, db, step).history, Bulk(jobId))|
            == |InsertedBy(db.history, Bulk(jobId))| + Reported(rules, db, step, jobId)
  {
    if !step.DeliverBulk? {
      OtherStepsInsertNothing(rules, db, step, jobId);
    } else {
      var found := FindJob(db.jobs, step.jobId);
      if found.Some? && !Finished(db.jobs[found.value]) {
        DeliveryInsertsItsPrefix(rules, db, found.value, step.weather, step.stop, Bulk(jobId));
        assert JobOk(db.jobs[found.value]);
      }
      hide Deliver;
    }
  }

  /** Over any run, with any number of deliveries each killed anywhere, the logs a job has inserted
      number exactly the sum over its deliveries of the successes each committed. */
  lemma {:induction false} InsertedLogsAreTheSumOfSuccesses(rules: Rules, db: Db, steps: seq<Step>, jobId: string)
    requires JobInv(db.jobs) && LegalRun(rules, db, steps)
    ensures |InsertedBy(Run(rules, db, steps).history, Bulk(jobId))|
            == |InsertedBy(db.history, Bulk(jobId))| + SumReported(rules, db, steps, jobId)
    decreases |steps|
  {
    if steps != [] {
      StepInsertsReported(rules, db, steps[0], jobId);
      StepKeepsJobs(rules, db, steps[0]);
      InsertedLogsAreTheSumOfSuccesses(rules, Apply(rules, db, steps[0]), steps[1..], jobId);
    }
  }

  // ----- Exactly once, without interruptions -----

  /** A delivery that runs to its end completes the job exactly when no item failed, completes it
      partially otherwise, and never fails it. */
  lemma UninterruptedDeliveryFinishes(rules: Rules, db: Db, i: nat, weather: Weather, stop: nat)
    requires JobInv(db.jobs) && i < |db.jobs| && db.jobs[i].jobType == BulkLogIngest && !Finished(db.jobs[i])
    requires stop > db.jobs[i].total + 1
    ensures
      var after := Deliver(rules, db, db.jobs[i].id, weather, stop).jobs;
      |after| == |db.jobs| && SameRequest(db.jobs[i], after[i])
      && after[i].success == Successes(weather, db.jobs[i].total)
      && after[i].status == if Failures(weather, db.jobs[i].total) == [] then Completed else PartiallyCompleted
  {
    assert JobOk(db.jobs[i]);
    BulkDelivery(rules, db, i, weather, stop);
    DeliveredRowIsOk(db.jobs[i], weather, stop);
    hide Deliver, DeliveredRow;
  }

  /** Every delivery of the job in the run is left to finish. */
  predicate Uninterrupted(steps: seq<Step>, jobId: string, total: nat) {
    forall k | 0 <= k < |steps| && steps[k].DeliverBulk? && steps[k].jobId == jobId :: steps[k].stop > total + 1
  }

  function FirstDelivery(steps: seq<Step>, jobId: string): Option<Weather> {
    if steps == [] then None
    else if steps[0].DeliverBulk? && steps[0].jobId == jobId then Some(steps[0].weather)
    else FirstDelivery(steps[1..], jobId)
  }

  /** A completed or partially completed job never changes again, and nothing more is inserted for it. */
  lemma {:induction false} FinishedJobInsertsNoMore(rules: Rules, db: Db, steps: seq<Step>, i: nat)
    requires JobInv(db.jobs) && LegalRun(rules, db, steps) && i < |db.jobs|
    requires db.jobs[i].status == Completed || db.jobs[i].status == PartiallyCompleted
    ensures
      var db' := Run(rules, db, steps);
      i < |db'.jobs| && db'.jobs[i] == db.jobs[i]
      && InsertedBy(db'.history, Bulk(db.jobs[i].id)) == InsertedBy(db.history, Bulk(db.jobs[i].id))
    decreases |steps|
  {
    if steps != [] {
      var step, jobId := steps[0], db.jobs[i].id;
      StepKeepsJobs(rules, db, step);
      FindsOwnRow(db.jobs, i);
      OtherDeliveriesInsertNothing(rules, db, step, i);
      FinishedJobInsertsNoMore(rules, Apply(rules, db, step), steps[1..], i);
    }
  }

  /** A step inserts logs for a job only if it delivers this job while it is unfinished. */
  lemma OtherDeliveriesInsertNothing(rules: Rules, db: Db, step: Step, i: nat)
    requires JobInv(db.jobs) && Legal(db, step) && i < |db.jobs|
    requires Finished(db.jobs[i]) || !(step.DeliverBulk? && step.jobId == db.jobs[i].id)
    ensures InsertedBy(Apply(rules, db, step).history, Bulk(db.jobs[i].id))
            == InsertedBy(db.history, Bulk(db.jobs[i].id))
  {
    if !step.DeliverBulk? {
      OtherStepsInsertNothing(rules, db, step, db.jobs[i].id);
    } else {
      FindsOwnRow(db.jobs, i);
      var found := FindJob(db.jobs, step.jobId);
      if found.Some? && !Finished(db.jobs[found.value]) {
        DeliveryInsertsItsPrefix(rules, db, found.value, step.weather, step.stop, Bulk(db.jobs[i].id));
      }
    }
  }

  lemma NothingToDeliver(rules: Rules, db: Db, jobId: string, weather: Weather, stop: nat)
    requires var found := FindJob(db.jobs, jobId); found.Some? ==> Finished(db.jobs[found.value])
    ensures Deliver(rules, db, jobId, weather, stop) == db
  {
  }

  lemma StaysUnfinished(rules: Rules, db: Db, step: Step, i: nat)
    requires JobInv(db.jobs) && Legal(db, step) && i < |db.jobs|
    requires db.jobs[i].jobType == BulkLogIngest && !Finished(db.jobs[i])
    requires !(step.DeliverBulk? && step.jobId == db.jobs[i].id)
    ensures i < |Apply(rules, db, step).jobs| && Apply(rules, db, step).jobs[i] == db.jobs[i]
  {
    FindsOwnRow(db.jobs, i);
    hide PersistLog, Deliver, Indexed, JobOk, Refused, AnalysisJobs.LatestFor, AnalysisJobs.HasGroup;
    match step
    case Ingest(item, now, fault) => PersistKeepsJobs(rules, db, item, Single, now, fault);
    case DeliverBulk(jobId, weather, stop) =>
      var found := FindJob(db.jobs, jobId);
      if found.Some? && !Finished(db.jobs[found.value]) {
        BulkDelivery(rules, db, found.value, weather, stop);
      } else {
        NothingToDeliver(rules, db, jobId, weather, stop);
      }
    case DeliverAnalysis(jobId, provided, clock, stop) =>
    case _ =>
  }

  lemma KilledDeliveryStaysOpen(rules: Rules, db: Db, i: nat, weather: Weather, stop: nat)
    requires JobInv(db.jobs) && i < |db.jobs| && db.jobs[i].jobType == BulkLogIngest && !Finished(db.jobs[i])
    requires stop <= db.jobs[i].total + 1
    ensures
      var after := Deliver(rules, db, db.jobs[i].id, weather, stop).jobs;
      JobInv(after) && |after| == |db.jobs| && SameRequest(db.jobs[i], after[i]) && !Finished(after[i])
  {
    assert JobOk(db.jobs[i]);
    FindsOwnRow(db.jobs, i);
    BulkDelivery(rules, db, i, weather, stop);
    DeliveredRowIsOk(db.jobs[i], weather, stop);
    BulkDeliveryKeepsJobs(rules, db, db.jobs[i].id, weather, stop);
    hide Deliver, DeliveredRow, Clash;
  }

  predicate Delivers(step: Step, jobId: string) {
    step.DeliverBulk? && step.jobId == jobId
  }

  /** What the deliveries of one job in a run amount to: the succeeding items of the prefix each gets
      through, one delivery after the other, until one is left to finish. */
  function Delivered(logs: seq<Item>, jobId: string, steps: seq<Step>): seq<Item> {
    if steps == [] then []
    else if !Delivers(steps[0], jobId) then Delivered(logs, jobId, steps[1..])
    else
      Succeeding(logs, steps[0].weather, ItemsDone(|logs|, steps[0].stop))
      + if steps[0].stop > |logs| + 1 then [] else Delivered(logs, jobId, steps[1..])
  }

  /** What the first delivery that is left to finish meets. */
  function FirstComplete(total: nat, jobId: string, steps: seq<Step>): Option<Weather> {
    if steps == [] then None
    else if Delivers(steps[0], jobId) && steps[0].stop > total + 1 then Some(steps[0].weather)
    else FirstComplete(total, jobId, steps[1..])
  }

  /** The successes committed by deliveries killed before that one. */
  function KilledSuccesses(total: nat, jobId: string, steps: seq<Step>): nat {
    if steps == [] || (Delivers(steps[0], jobId) && steps[0].stop > total + 1) then 0
    else
      (if Delivers(steps[0], jobId) then Successes(steps[0].weather, ItemsDone(total, steps[0].stop)) else 0)
      + KilledSuccesses(total, jobId, steps[1..])
  }

  /** Over any run, with deliveries killed anywhere and other steps between them, a job inserts
      exactly its deliveries' prefixes, in order, and it ends with the first complete delivery. */
  lemma {:induction false} RunInsertsWhatItDelivers(rules: Rules, db: Db, steps: seq<Step>, i: nat)
    requires JobInv(db.jobs) && LegalRun(rules, db, steps) && i < |db.jobs|
    requires db.jobs[i].jobType == BulkLogIngest && !Finished(db.jobs[i])
    ensures
      var job, db' := db.jobs[i], Run(rules, db, steps);
      var complete := FirstComplete(job.total, job.id, steps);
      && i < |db'.jobs| && SameRequest(job, db'.jobs[i]) && |job.payload.logs| == job.total
      && InsertedBy(db'.history, Bulk(job.id))
         == InsertedBy(db.history, Bulk(job.id)) + Delivered(job.payload.logs, job.id, steps)
      && if complete.None? then !Finished(db'.jobs[i])
         else db'.jobs[i].success == Successes(complete.value, job.total)
              && db'.jobs[i].status
                 == if Failures(complete.value, job.total) == [] then Completed else PartiallyCompleted
    decreases |steps|
  {
    assert JobOk(db.jobs[i]);
    hide Indexed, JobOk, Failures, Successes, InsertedBy;
    if steps != [] {
      var step, job := steps[0], db.jobs[i];
      var next := Apply(rules, db, step);
      var logs, jobId := job.payload.logs, job.id;
      StepDelivers(rules, db, step, i);
      if Delivers(step, jobId) && step.stop > job.total + 1 {
        assert Delivered(logs, jobId, steps) == Succeeding(logs, step.weather, ItemsDone(job.total, step.stop));
        hide JobInv, InsertedBy, Succeeding, Successes, Failures, Delivered;
        FinishedJobInsertsNoMore(rules, next, steps[1..], i);
      } else {
        var before := InsertedBy(db.history, Bulk(jobId));
        var prefix := if Delivers(step, jobId)
                      then Succeeding(logs, step.weather, ItemsDone(job.total, step.stop)) else [];
        assert Delivered(logs, jobId, steps) == prefix + Delivered(logs, jobId, steps[1..]);
        ConcatAssociative(before, prefix, Delivered(logs, jobId, steps[1..]));
        hide JobInv, InsertedBy, Succeeding, Successes, Failures, Delivered;
        RunInsertsWhatItDelivers(rules, next, steps[1..], i);
      }
    }
  }

  /** One step of such a run. */
  lemma StepDelivers(rules: Rules, db: Db, step: Step, i: nat)
    requires JobInv(db.jobs) && Legal(db, step) && i < |db.jobs|
    requires db.jobs[i].jobType == BulkLogIngest && !Finished(db.jobs[i])
    ensures
      var job, next := db.jobs[i], Apply(rules, db, step);
      && JobInv(next.jobs) && i < |next.jobs| && SameRequest(job, next.jobs[i])
      && job.payload.BulkPayload? && |job.payload.logs| == job.total
      && InsertedBy(next.history, Bulk(job.id))
         == InsertedBy(db.history, Bulk(job.id))
            + (if Delivers(step, job.id)
               then Succeeding(job.payload.logs, step.weather, ItemsDone(job.total, step.stop)) else [])
      && if Delivers(step, job.id) && step.stop > job.total + 1 then
           next.jobs[i].success == Successes(step.weather, job.total)
           && next.jobs[i].status == if Failures(step.weather, job.total) == [] then Completed else PartiallyCompleted
         else !Finished(next.jobs[i])
  {
    var job := db.jobs[i];
    assert JobOk(job);
    StepKeepsJobs(rules, db, step);
    hide InsertedBy, Succeeding, Successes, Failures, JobInv, Deliver;
    if !Delivers(step, job.id) {
      OtherDeliveriesInsertNothing(rules, db, step, i);
      StaysUnfinished(rules, db, step, i);
      hide Apply;
    } else {
      DeliveryInsertsItsPrefix(rules, db, i, step.weather, step.stop, Bulk(job.id));
      if step.stop > job.total + 1 {
        UninterruptedDeliveryFinishes(rules, db, i, step.weather, step.stop);
      } else {
        KilledDeliveryStaysOpen(rules, db, i, step.weather, step.stop);
      }
    }
  }

  lemma {:induction false} DeliveredSplits(logs: seq<Item>, jobId: string, steps: seq<Step>) returns (killed: seq<Item>)
    ensures |killed| == KilledSuccesses(|logs|, jobId, steps)
    ensures
      var complete := FirstComplete(|logs|, jobId, steps);
      Delivered(logs, jobId, steps)
      == killed + if complete.None? then [] else Succeeding(logs, complete.value, |logs|)
  {
    if steps == [] {
      killed := [];
    } else if !Delivers(steps[0], jobId) {
      killed := DeliveredSplits(logs, jobId, steps[1..]);
    } else if steps[0].stop > |logs| + 1 {
      killed := [];
    } else {
      var rest := DeliveredSplits(logs, jobId, steps[1..]);
      killed := Succeeding(logs, steps[0].weather, ItemsDone(|logs|, steps[0].stop)) + rest;
    }
  }

  /** Bulk processing is not idempotent under redelivery. In a run that brings a job to its end, the
      job has inserted just the succeeding items of the delivery that ended it exactly when no
      delivery killed before had committed a success, that is, when the successes all its deliveries
      reported sum up to no more than the final row's `success`. Otherwise the killed deliveries'
      logs stay on top. */
  lemma RedeliveryRepeatsExactlyWhen(rules: Rules, db: Db, steps: seq<Step>, i: nat)
    requires JobInv(db.jobs) && LegalRun(rules, db, steps) && i < |db.jobs|
    requires db.jobs[i].jobType == BulkLogIngest && !Finished(db.jobs[i])
    requires FirstComplete(db.jobs[i].total, db.jobs[i].id, steps).Some?
    ensures
      var job, db' := db.jobs[i], Run(rules, db, steps);
      var complete := FirstComplete(job.total, job.id, steps).value;
      && i < |db'.jobs| && |job.payload.logs| == job.total
      && var once := InsertedBy(db'.history, Bulk(job.id))
                     == InsertedBy(db.history, Bulk(job.id)) + Succeeding(job.payload.logs, complete, job.total);
         (once <==> KilledSuccesses(job.total, job.id, steps) == 0)
         && (once <==> SumReported(rules, db, steps, job.id) == db'.jobs[i].success)
  {
    var job := db.jobs[i];
    assert JobOk(job);
    RunInsertsWhatItDelivers(rules, db, steps, i);
    InsertedLogsAreTheSumOfSuccesses(rules, db, steps, job.id);
    var killed := DeliveredSplits(job.payload.logs, job.id, steps);
    hide JobInv, Run, InsertedBy, SumReported, Delivered, LegalRun, KilledSuccesses, FirstComplete, Successes, Failures;
    var complete := FirstComplete(job.total, job.id, steps).value;
    var before, once := InsertedBy(db.history, Bulk(job.id)), Succeeding(job.payload.logs, complete, job.total);
    assert before + (killed + once) == before + once <==> killed == [] by {
      if killed != [] {
        assert |before + (killed + once)| > |before + once|;
      } else {
        assert killed + once == once;
      }
    }
  }

  /** However many uninterrupted deliveries of a job a run holds, and whatever happens between them,
      each succeeding item of the first is inserted exactly once, and the job ends with it. */
  lemma ExactlyOnce(rules: Rules, db: Db, steps: seq<Step>, i: nat)
    requires JobInv(db.jobs) && LegalRun(rules, db, steps) && i < |db.jobs|
    requires db.jobs[i].jobType == BulkLogIngest && !Finished(db.jobs[i])
    requires Uninterrupted(steps, db.jobs[i].id, db.jobs[i].total)
    ensures
      var job, db' := db.jobs[i], Run(rules, db, steps);
      var first := FirstDelivery(steps, job.id);
      && i < |db'.jobs| && SameRequest(job, db'.jobs[i]) && |job.payload.logs| == job.total
      && InsertedBy(db'.history, Bulk(job.id))
         == InsertedBy(db.history, Bulk(job.id))
            + (if first.None? then [] else Succeeding(job.payload.logs, first.value, job.total))
      && (first.Some? ==>
            db'.jobs[i].status == if Failures(first.value, job.total) == [] then Completed else PartiallyCompleted)
  {
    var job := db.jobs[i];
    RunInsertsWhatItDelivers(rules, db, steps, i);
    hide *;
    UninterruptedIsComplete(job.payload.logs, job.id, steps);
  }

  lemma {:induction false} UninterruptedIsComplete(logs: seq<Item>, jobId: string, steps: seq<Step>)
    requires Uninterrupted(steps, jobId, |logs|)
    ensures
      var first := FirstDelivery(steps, jobId);
      && FirstComplete(|logs|, jobId, steps) == first
      && Delivered(logs, jobId, steps) == if first.None? then [] else Succeeding(logs, first.value, |logs|)
  {
    hide Succeeding;
    if steps != [] && !Delivers(steps[0], jobId) {
      assert forall k | 0 <= k < |steps[1..]| :: steps[1..][k] == steps[k + 1];
      UninterruptedIsComplete(logs, jobId, steps[1..]);
    }
  }

  // ----- Idempotency keys -----

  /** Once a key has a batch job, every later submission under it changes nothing: the same batch is
      answered with that job, a different one is refused. */
  lemma KeyAnswersForever(rules: Rules, db: Db, steps: seq<Step>, i: nat, key: string, logs: seq<Item>, id: string)
    requires JobInv(db.jobs) && LegalRun(rules, db, steps) && i < |db.jobs| && logs != []
    requires db.jobs[i].jobType == BulkLogIngest && db.jobs[i].idempotencyKey == Some(key)
    ensures
      var later := Run(rules, db, steps);
      Submit(later, Some(key), logs, id)
      == (later, if logs == db.jobs[i].payload.logs then Ok(db.jobs[i].id) else Err(Conflict))
  {
    RunKeepsJobs(rules, db, steps);
    var later := Run(rules, db, steps);
    assert JobOk(db.jobs[i]) && JobOk(later.jobs[i]);
    var found := FindByKey(later.jobs, BulkLogIngest, key);
    assert found.Some?;
    assert found.value < i ==> Clash(later.jobs[found.value], later.jobs[i]);
    assert i < found.value ==> Clash(later.jobs[i], later.jobs[found.value]);
    assert found.value == i;
  }

  /** A batch under a new key, or without a key, is always accepted, with a pending job of its own
      under the new id; an empty batch is not. */
  lemma NewBatchIsAccepted(db: Db, key: Option<string>, logs: seq<Item>, id: string)
    requires FindJob(db.jobs, id).None?
    requires key.Some? ==> FindByKey(db.jobs, BulkLogIngest, key.value).None?
    ensures Submit(db, key, logs, id)
            == if logs == [] then (db, Err(ValidationError))
               else
                 var payload := BulkPayload(RequestHash(logs), logs, []);
                 (db.(jobs := db.jobs + [Job(id, BulkLogIngest, Pending, payload, |logs|, 0, 0, 0, key, None,
                                             None, None, None)]), Ok(id))
  {
  }

  /** Submitting a batch under a new key or without one, and then the run going on in any way in which
      the job is only delivered uninterrupted: each succeeding item once. Under a key the same job
      answers every later submission of the batch. */
  lemma SubmittedBatchRunsOnce(rules: Rules, db: Db, key: Option<string>, logs: seq<Item>, id: string,
                               steps: seq<Step>)
    requires JobInv(db.jobs) && logs != [] && FindJob(db.jobs, id).None?
    requires key.Some? ==> FindByKey(db.jobs, BulkLogIngest, key.value).None?
    requires InsertedBy(db.history, Bulk(id)) == []
    requires LegalRun(rules, Submit(db, key, logs, id).0, steps) && Uninterrupted(steps, id, |logs|)
    ensures
      var later := Run(rules, Submit(db, key, logs, id).0, steps);
      var first := FirstDelivery(steps, id);
      && Submit(db, key, logs, id).1 == Ok(id)
      && (key.Some? ==> forall id' :: Submit(later, key, logs, id') == (later, Ok(id)))
      && InsertedBy(later.history, Bulk(id))
         == if first.None? then [] else Succeeding(logs, first.value, |logs|)
  {
    var submitted := Submit(db, key, logs, id).0;
    var i := |db.jobs|;
    NewBatchIsAccepted(db, key, logs, id);
    CreationKeepsJobs(db, BatchJob(key, logs), id);
    ExactlyOnce(rules, submitted, steps, i);
    if key.Some? {
      forall id' ensures
          var later := Run(rules, submitted, steps);
          Submit(later, key, logs, id') == (later, Ok(id))
      {
        KeyAnswersForever(rules, submitted, steps, i, key.value, logs, id');
      }
    }
  }

  // ----- Analysis jobs: requests and restarts -----

  /** A pending or running job analyses the group. */
  predicate Analyses(job: Job, groupId: nat) {
    (job.status == Pending || job.status == Running) && job.jobType == ErrorGroupAnalysis
    && job.payload.AnalysisPayload? && job.payload.groupId == groupId
  }

  predicate Busy(jobs: seq<Job>, groupId: nat) {
    exists k | 0 <= k < |jobs| :: Analyses(jobs[k], groupId)
  }

  /** The scope lock is a lock on one group: jobs hold the scope of a group exactly when they analyse it. */
  lemma ScopeMeansGroup(job: Job, groupId: nat)
    requires JobOk(job)
    ensures Analyses(job, groupId)
            <==> Active(job) && job.jobType == ErrorGroupAnalysis && job.scopeKey == Some(AnalysisJobs.ScopeOf(groupId))
  {
    if job.jobType == ErrorGroupAnalysis && job.scopeKey == Some(AnalysisJobs.ScopeOf(groupId)) {
      AnalysisJobs.ScopesDiffer(job.payload.groupId, groupId);
    }
  }

  /** A request to analyse a group is refused exactly while a job analyses this very group, and then
      changes nothing; jobs of other groups never block it. */
  lemma RequestIsRefusedExactlyWhen(db: Db, groupId: nat, requestedBy: nat, id: string)
    requires JobInv(db.jobs) && AnalysisJobs.HasGroup(db.groups, groupId) && FindJob(db.jobs, id).None?
    ensures
      var (db', result) := AnalysisJobs.RequestAnalysis(db, groupId, requestedBy, id);
      && result == (if Busy(db.jobs, groupId) then Err(AnalysisJobs.Rejected(Conflict)) else Ok(id))
      && if Busy(db.jobs, groupId) then db' == db
         else
           var scope := "error-group:" + Decimal(groupId) + ":analysis";
           db' == db.(jobs := db.jobs + [Job(id, ErrorGroupAnalysis, Pending, AnalysisPayload(groupId, requestedBy),
                                             1, 0, 0, 0, None, Some(scope), None, None, None)])
  {
    forall k | 0 <= k < |db.jobs|
      ensures Analyses(db.jobs[k], groupId) <==> Active(db.jobs[k]) && db.jobs[k].jobType == ErrorGroupAnalysis
                                                 && db.jobs[k].scopeKey == Some(AnalysisJobs.ScopeOf(groupId))
    {
      ScopeMeansGroup(db.jobs[k], groupId);
    }
    hide JobInv, AnalysisJobs.ScopeOf, Analyses;
  }

  /** Redelivering an unfinished analysis job does nothing at all exactly when another job has begun
      to analyse its group: the partial unique index aborts the restart, which would otherwise leave
      two active jobs for one group. */
  lemma RestartIsAbortedExactlyWhen(db: Db, i: nat, provided: bool, clock: nat -> int, stop: nat)
    requires JobInv(db.jobs) && i < |db.jobs| && db.jobs[i].jobType == ErrorGroupAnalysis
    requires !Finished(db.jobs[i]) && stop > 0 && AnalysisJobs.HasGroup(db.groups, db.jobs[i].payload.groupId)
    ensures
      var db' := AnalysisJobs.Deliver(db, db.jobs[i].id, provided, clock, stop);
      var taken := exists k :: 0 <= k < |db.jobs| && k != i && Analyses(db.jobs[k], db.jobs[i].payload.groupId);
      && (db' == db <==> taken)
      && (taken ==> db.jobs[i].status == Failed
                    && !Indexed(db.jobs[i := MarkedRunning(db.jobs[i], clock(0))]))
  {
    var job := db.jobs[i];
    assert JobOk(job);
    FindsOwnRow(db.jobs, i);
    var running := MarkedRunning(job, clock(0));
    forall k | 0 <= k < |db.jobs| && k != i
      ensures Clash(db.jobs[k], running) <==> Analyses(db.jobs[k], job.payload.groupId)
      ensures Analyses(db.jobs[k], job.payload.groupId) ==> SameActiveScope(db.jobs[k], running) && job.status == Failed
    {
      assert if k < i then !Clash(db.jobs[k], job) else !Clash(job, db.jobs[k]);
      ScopeMeansGroup(db.jobs[k], job.payload.groupId);
    }
    hide Analyses, AnalysisJobs.ScopeOf, JobInv;
    if k :| 0 <= k < |db.jobs| && k != i && Analyses(db.jobs[k], job.payload.groupId) {
      var restarted := db.jobs[i := running];
      assert if k < i then Clash(restarted[k], restarted[i]) else Clash(restarted[i], restarted[k]);
    } else {
      AnalysisDeliveryRow(db, i, provided, clock, stop);
    }
  }

  /** What a delivery of a startable analysis job leaves: a pending analysis and a running job when
      it is killed between its commits, otherwise both settled by the provider's answer. */
  lemma AnalysisDeliveryRow(db: Db, i: nat, provided: bool, clock: nat -> int, stop: nat)
    requires JobInv(db.jobs) && i < |db.jobs| && db.jobs[i].jobType == ErrorGroupAnalysis
    requires !Finished(db.jobs[i]) && stop > 0 && AnalysisJobs.HasGroup(db.groups, db.jobs[i].payload.groupId)
    requires !Refused(db.jobs, MarkedRunning(db.jobs[i], clock(0)), i)
    ensures
      var job, db' := db.jobs[i], AnalysisJobs.Deliver(db, db.jobs[i].id, provided, clock, stop);
      var last := |db.analyses|;
      && |db'.analyses| == last + 1 && db'.analyses[..last] == db.analyses
      && db'.analyses[last].groupId == job.payload.groupId
      && |db'.jobs| == |db.jobs| && SameRequest(job, db'.jobs[i])
      && db'.analyses[last].createdBy == job.payload.requestedBy
      && var row := db'.jobs[i];
         row.startedAt == (if job.startedAt.Some? then job.startedAt else Some(clock(0)))
         && if stop == 1 then
              row.status == Running && db'.analyses[last].status == AnalysisPending
            else if provided then
              row.status == Completed && (row.processed, row.success, row.failure) == (1, 1, 0)
              && row.errorSummary == None && row.completedAt == Some(clock(1))
              && db'.analyses[last].status == AnalysisCompleted
            else
              row.status == Failed && (row.processed, row.success, row.failure) == (1, 0, 1)
              && row.errorSummary == Some(AnalysisFailed) && row.completedAt == Some(clock(1))
              && db'.analyses[last].status == AnalysisUnsuccessful
  {
    assert JobOk(db.jobs[i]);
    FindsOwnRow(db.jobs, i);
    var pending := Analysis(db.jobs[i].payload.groupId, AnalysisPending, db.jobs[i].payload.requestedBy);
    var analyses := db.analyses + [pending];
    assert AnalysisJobs.LatestFor(analyses, pending.groupId) == Some(|db.analyses|);
  }

  /** Without its group a job fails in its only commit, with no analysis added. */
  lemma AnalysisWithoutGroupFails(db: Db, i: nat, provided: bool, clock: nat -> int, stop: nat)
    requires JobInv(db.jobs) && i < |db.jobs| && db.jobs[i].jobType == ErrorGroupAnalysis
    requires !Finished(db.jobs[i]) && stop > 0
    requires forall k | 0 <= k < |db.groups| :: db.groups[k].id != db.jobs[i].payload.groupId
    requires !Refused(db.jobs, MarkedRunning(db.jobs[i], clock(0)), i)
    ensures
      var job := db.jobs[i];
      AnalysisJobs.Deliver(db, job.id, provided, clock, stop)
      == db.(jobs := db.jobs[i := job.(
           status := Failed, startedAt := if job.startedAt.Some? then job.startedAt else Some(clock(0)),
           completedAt := Some(clock(0)), errorSummary := Some(GroupNotFound))])
  {
    assert JobOk(db.jobs[i]);
    FindsOwnRow(db.jobs, i);
    hide Refused, Clash, AnalysisOk;
  }

  // ----- How many analyses a group has -----

  function CountAnalyses(analyses: seq<Analysis>, groupId: nat, pendingOnly: bool): nat {
    if analyses == [] then 0
    else
      var last := |analyses| - 1;
      CountAnalyses(analyses[..last], groupId, pendingOnly)
      + if analyses[last].groupId == groupId && (pendingOnly ==> analyses[last].status == AnalysisPending) then 1 else 0
  }

  /** The step delivers an unfinished job of the group, alive until its first commit, while no other
      job analyses the group. */
  predicate Begins(db: Db, step: Step, groupId: nat) {
    step.DeliverAnalysis? && step.stop > 0 && AnalysisJobs.HasGroup(db.groups, groupId)
    && var i := FindJob(db.jobs, step.jobId);
       i.Some? && !Finished(db.jobs[i.value]) && db.jobs[i.value].payload.AnalysisPayload?
       && db.jobs[i.value].payload.groupId == groupId
       && !exists k :: 0 <= k < |db.jobs| && k != i.value && Analyses(db.jobs[k], groupId)
  }

  /** The deliveries that begin, or those of them killed after their first commit. */
  function CountSteps(rules: Rules, db: Db, steps: seq<Step>, groupId: nat, abandonedOnly: bool): nat
    decreases |steps|
  {
    if steps == [] then 0
    else
      (if Begins(db, steps[0], groupId) && (abandonedOnly ==> steps[0].stop == 1) then 1 else 0)
      + CountSteps(rules, Apply(rules, db, steps[0]), steps[1..], groupId, abandonedOnly)
  }

  lemma OtherStepsKeepAnalyses(rules: Rules, db: Db, step: Step)
    requires JobInv(db.jobs) && Legal(db, step) && !step.DeliverAnalysis?
    ensures Apply(rules, db, step).analyses == db.analyses
  {
    match step
    case Ingest(item, now, fault) => PersistKeepsJobs(rules, db, item, Single, now, fault);
    case DeliverBulk(jobId, weather, stop) =>
      hide Deliver, BulkOk;
      var found := FindJob(db.jobs, jobId);
      if found.Some? && !Finished(db.jobs[found.value]) {
        BulkDelivery(rules, db, found.value, weather, stop);
      } else {
        NothingToDeliver(rules, db, jobId, weather, stop);
      }
    case _ =>
  }

  /** A delivery adds one analysis if it begins, and leaves every earlier one as it is. */
  lemma DeliveryAddsAnalysis(db: Db, step: Step, groupId: nat) returns (added: seq<Analysis>)
    requires JobInv(db.jobs) && Legal(db, step) && step.DeliverAnalysis?
    ensures AnalysisJobs.Deliver(db, step.jobId, step.provided, step.clock, step.stop).analyses == db.analyses + added
    ensures |added| <= 1 && (added == [] ==> !Begins(db, step, groupId))
    ensures added != [] ==>
              (added[0].groupId == groupId <==> Begins(db, step, groupId))
              && (added[0].status == AnalysisPending <==> step.stop == 1)
  {
    added := [];
    var found := FindJob(db.jobs, step.jobId);
    if found.Some? && !Finished(db.jobs[found.value]) && step.stop > 0 {
      var i, job := found.value, db.jobs[found.value];
      assert JobOk(job);
      if AnalysisJobs.HasGroup(db.groups, job.payload.groupId) {
        RestartIsAbortedExactlyWhen(db, i, step.provided, step.clock, step.stop);
        var db' := AnalysisJobs.Deliver(db, job.id, step.provided, step.clock, step.stop);
        if db' != db {
          AnalysisDeliveryRow(db, i, step.provided, step.clock, step.stop);
          added := [db'.analyses[|db.analyses|]];
          assert db'.analyses == db.analyses + added;
        }
      }
    }
  }

  /** Over any run a group gains one analysis for each delivery that begins, those killed after their
      first commit leave theirs pending for good, and no analysis there before ever changes. */
  lemma {:induction false} AnalysesAreCounted(rules: Rules, db: Db, steps: seq<Step>, groupId: nat)
    requires JobInv(db.jobs) && LegalRun(rules, db, steps)
    ensures
      var later := Run(rules, db, steps);
      && db.analyses <= later.analyses
      && CountAnalyses(later.analyses, groupId, false)
         == CountAnalyses(db.analyses, groupId, false) + CountSteps(rules, db, steps, groupId, false)
      && CountAnalyses(later.analyses, groupId, true)
         == CountAnalyses(db.analyses, groupId, true) + CountSteps(rules, db, steps, groupId, true)
    decreases |steps|
  {
    if steps != [] {
      var next := Apply(rules, db, steps[0]);
      StepKeepsJobs(rules, db, steps[0]);
      StepAddsAnalysis(rules, db, steps[0], groupId);
      hide JobInv, Apply, Begins, CountAnalyses;
      AnalysesAreCounted(rules, next, steps[1..], groupId);
    }
  }

  lemma StepAddsAnalysis(rules: Rules, db: Db, step: Step, groupId: nat)
    requires JobInv(db.jobs) && Legal(db, step)
    ensures
      var after, begins := Apply(rules, db, step).analyses, Begins(db, step, groupId);
      && db.analyses <= after
      && CountAnalyses(after, groupId, false) == CountAnalyses(db.analyses, groupId, false) + (if begins then 1 else 0)
      && CountAnalyses(after, groupId, true)
         == CountAnalyses(db.analyses, groupId, true) + (if begins && step.stop == 1 then 1 else 0)
  {
    if step.DeliverAnalysis? {
      var added := DeliveryAddsAnalysis(db, step, groupId);
      hide AnalysisJobs.Deliver, JobInv, CountAnalyses, Begins;
      if added == [] {
        assert db.analyses + added == db.analyses;
      } else {
        OneMoreAnalysis(db.analyses, added[0], groupId, false);
        OneMoreAnalysis(db.analyses, added[0], groupId, true);
        assert added == [added[0]];
      }
    } else {
      OtherStepsKeepAnalyses(rules, db, step);
    }
  }

  lemma OneMoreAnalysis(analyses: seq<Analysis>, added: Analysis, groupId: nat, pendingOnly: bool)
    ensures CountAnalyses(analyses + [added], groupId, pendingOnly)
            == CountAnalyses(analyses, groupId, pendingOnly)
               + if added.groupId == groupId && (pendingOnly ==> added.status == AnalysisPending) then 1 else 0
  {
    assert (analyses + [added])[..|analyses|] == analyses;
  }

  // ----- The lock left by a killed worker -----

  lemma ActiveDelivery(db: Db, i: nat, provided: bool, clock: nat -> int, stop: nat)
    requires JobInv(db.jobs) && i < |db.jobs| && db.jobs[i].jobType == ErrorGroupAnalysis
    requires Active(db.jobs[i]) && AnalysisJobs.HasGroup(db.groups, db.jobs[i].payload.groupId) && stop > 0
    ensures
      var db' := AnalysisJobs.Deliver(db, db.jobs[i].id, provided, clock, stop);
      && JobInv(db'.jobs) && |db'.jobs| == |db.jobs| && db'.groups == db.groups
      && SameRequest(db.jobs[i], db'.jobs[i])
      && (Active(db'.jobs[i]) <==> stop == 1)
      && forall k | 0 <= k < |db.jobs| && k != i :: db'.jobs[k] == db.jobs[k]
  {
    assert JobOk(db.jobs[i]);
    FindsOwnRow(db.jobs, i);
    ActiveRestarts(db.jobs, i, clock(0));
    AnalysisDeliveryRow(db, i, provided, clock, stop);
    AnalysisDeliveryKeepsJobs(db, db.jobs[i].id, provided, clock, stop);
    hide Clash, AnalysisOk;
  }

  /** Beside an active analysis job no other job analyses its group. */
  lemma OneJobPerGroup(jobs: seq<Job>, i: nat, k: nat)
    requires JobInv(jobs) && i < |jobs| && k < |jobs| && i != k
    requires jobs[i].jobType == ErrorGroupAnalysis && Active(jobs[i])
    ensures !Analyses(jobs[k], jobs[i].payload.groupId)
  {
    assert JobOk(jobs[i]);
    ScopeMeansGroup(jobs[k], jobs[i].payload.groupId);
    assert if k < i then !Clash(jobs[k], jobs[i]) else !Clash(jobs[i], jobs[k]);
  }

  /** A worker killed between the two commits leaves its group locked: a new request for the group is
      refused until a redelivery runs to its end, and accepted after that. Requests for any other
      group are answered as before. */
  lemma ScopeLockedUntilRedelivered(db: Db, i: nat, provided: bool, clock: nat -> int, requestedBy: nat,
                                    id: string, other: nat)
    requires JobInv(db.jobs) && i < |db.jobs| && db.jobs[i].jobType == ErrorGroupAnalysis
    requires Active(db.jobs[i]) && AnalysisJobs.HasGroup(db.groups, db.jobs[i].payload.groupId)
    requires FindJob(db.jobs, id).None?
    ensures
      var groupId := db.jobs[i].payload.groupId;
      var killed := AnalysisJobs.Deliver(db, db.jobs[i].id, provided, clock, 1);
      var ended := AnalysisJobs.Deliver(killed, db.jobs[i].id, provided, clock, 2);
      && AnalysisJobs.RequestAnalysis(killed, groupId, requestedBy, id).1 == Err(AnalysisJobs.Rejected(Conflict))
      && AnalysisJobs.RequestAnalysis(ended, groupId, requestedBy, id).1 == Ok(id)
      && (other != groupId ==>
            AnalysisJobs.RequestAnalysis(killed, other, requestedBy, id).1
            == AnalysisJobs.RequestAnalysis(ended, other, requestedBy, id).1
            == AnalysisJobs.RequestAnalysis(db, other, requestedBy, id).1)
  {
    var job := db.jobs[i];
    var groupId := job.payload.groupId;
    var killed := AnalysisJobs.Deliver(db, job.id, provided, clock, 1);
    ActiveDelivery(db, i, provided, clock, 1);
    ActiveDelivery(killed, i, provided, clock, 2);
    var ended := AnalysisJobs.Deliver(killed, job.id, provided, clock, 2);
    forall k | 0 <= k < |db.jobs| && k != i ensures !Analyses(db.jobs[k], groupId) {
      OneJobPerGroup(db.jobs, i, k);
    }
    hide AnalysisJobs.Deliver, AnalysisJobs.RequestAnalysis, JobInv, AnalysisJobs.HasGroup;
    assert Analyses(killed.jobs[i], groupId);
    RequestAnswered(db, killed, groupId, requestedBy, id);
    RequestAnswered(db, ended, groupId, requestedBy, id);
    if other != groupId && AnalysisJobs.HasGroup(db.groups, other) {
      RequestIsRefusedExactlyWhen(db, other, requestedBy, id);
      RequestAnswered(db, killed, other, requestedBy, id);
      RequestAnswered(db, ended, other, requestedBy, id);
      OtherGroupsUndisturbed(db.jobs, killed.jobs, i, other);
      OtherGroupsUndisturbed(db.jobs, ended.jobs, i, other);
    } else if other != groupId {
      NoSuchGroup(db, other, requestedBy, id);
      NoSuchGroup(killed, other, requestedBy, id);
      NoSuchGroup(ended, other, requestedBy, id);
    }
  }

  lemma NoSuchGroup(db: Db, groupId: nat, requestedBy: nat, id: string)
    requires !AnalysisJobs.HasGroup(db.groups, groupId)
    ensures AnalysisJobs.RequestAnalysis(db, groupId, requestedBy, id) == (db, Err(AnalysisJobs.NotFound))
  {
  }

  lemma RequestAnswered(db: Db, later: Db, groupId: nat, requestedBy: nat, id: string)
    requires JobInv(later.jobs) && later.groups == db.groups && AnalysisJobs.HasGroup(db.groups, groupId)
    requires FindJob(db.jobs, id).None? && |later.jobs| == |db.jobs|
    requires forall k | 0 <= k < |db.jobs| :: later.jobs[k].id == db.jobs[k].id
    ensures AnalysisJobs.RequestAnalysis(later, groupId, requestedBy, id).1
            == if Busy(later.jobs, groupId) then Err(AnalysisJobs.Rejected(Conflict)) else Ok(id)
  {
    hide JobInv, AnalysisJobs.HasGroup;
    UnusedStaysUnused(db.jobs, later.jobs, id);
    RequestIsRefusedExactlyWhen(later, groupId, requestedBy, id);
  }

  lemma OtherGroupsUndisturbed(before: seq<Job>, after: seq<Job>, i: nat, groupId: nat)
    requires i < |before| == |after| && SameRequest(before[i], after[i])
    requires before[i].payload.AnalysisPayload? && before[i].payload.groupId != groupId
    requires forall k | 0 <= k < |before| && k != i :: after[k] == before[k]
    ensures Busy(after, groupId) <==> Busy(before, groupId)
  {
    if k :| 0 <= k < |before| && Analyses(before[k], groupId) {
      assert Analyses(after[k], groupId);
    }
    if k :| 0 <= k < |after| && Analyses(after[k], groupId) {
      assert Analyses(before[k], groupId);
    }
  }

  lemma UnusedStaysUnused(before: seq<Job>, after: seq<Job>, id: string)
    requires FindJob(before, id).None? && |before| == |after|
    requires forall k | 0 <= k < |before| :: after[k].id == before[k].id
    ensures FindJob(after, id).None?
  {
    hide FindJob;
  }

  lemma ActiveRestarts(jobs: seq<Job>, i: nat, now: int)
    requires Indexed(jobs) && i < |jobs| && Active(jobs[i])
    ensures !Refused(jobs, MarkedRunning(jobs[i], now), i)
  {
    var running := MarkedRunning(jobs[i], now);
    forall k | 0 <= k < |jobs| && k != i ensures !Clash(jobs[k], running) {
      assert if k < i then !Clash(jobs[k], jobs[i]) else !Clash(jobs[i], jobs[k]);
    }
  }
}
