/** The retention task (app/workers/tasks/cleanup_tasks.py): a dry run that counts, and a loop that
    deletes the expired logs batch by batch, committing each batch. */
module Cleanup {
  import opened Prelude
  import opened Database
  import opened Tables

  predicate Expired(log: Log, threshold: int) {
    log.item.timestamp < threshold
  }

  /** The dry run's count. */
  function CountExpired(logs: seq<Log>, threshold: int): nat {
    if logs == [] then 0
    else (if Expired(logs[0], threshold) then 1 else 0) + CountExpired(logs[1..], threshold)
  }

  /** The ids of the first `limit` expired logs. */
  function ExpiredIds(logs: seq<Log>, threshold: int, limit: nat): (ids: seq<nat>)
    ensures |ids| == if CountExpired(logs, threshold) < limit then CountExpired(logs, threshold) else limit
  {
    if logs == [] || limit == 0 then []
    else if Expired(logs[0], threshold) then [logs[0].id] + ExpiredIds(logs[1..], threshold, limit - 1)
    else ExpiredIds(logs[1..], threshold, limit)
  }

  /** `DELETE ... WHERE id IN ids`. */
  function WithoutIds(logs: seq<Log>, ids: seq<nat>): seq<Log> {
    if logs == [] then []
    else if logs[0].id in ids then WithoutIds(logs[1..], ids)
    else [logs[0]] + WithoutIds(logs[1..], ids)
  }

  /** All logs that have not expired: what deleting the expired ones at once leaves. */
  function Unexpired(logs: seq<Log>, threshold: int): seq<Log> {
    if logs == [] then []
    else if Expired(logs[0], threshold) then Unexpired(logs[1..], threshold)
    else [logs[0]] + Unexpired(logs[1..], threshold)
  }

  /** The logs without the first `n` expired ones. */
  function Sweep(logs: seq<Log>, threshold: int, n: nat): seq<Log> {
    if logs == [] || n == 0 then logs
    else if Expired(logs[0], threshold) then Sweep(logs[1..], threshold, n - 1)
    else [logs[0]] + Sweep(logs[1..], threshold, n)
  }

  lemma {:induction false} WithoutForeignIds(logs: seq<Log>, ids: seq<nat>)
    requires forall k | 0 <= k < |logs| :: logs[k].id !in ids
    ensures WithoutIds(logs, ids) == logs
  {
    if logs != [] {
      WithoutForeignIds(logs[1..], ids);
    }
  }

  lemma {:induction false} WithoutAbsentId(logs: seq<Log>, id: nat, ids: seq<nat>)
    requires forall k | 0 <= k < |logs| :: logs[k].id != id
    ensures WithoutIds(logs, [id] + ids) == WithoutIds(logs, ids)
  {
    if logs != [] {
      WithoutAbsentId(logs[1..], id, ids);
    }
  }

  lemma {:induction false} ExpiredIdsAreIds(logs: seq<Log>, threshold: int, limit: nat, id: nat)
    requires id in ExpiredIds(logs, threshold, limit)
    ensures exists k :: 0 <= k < |logs| && logs[k].id == id
  {
    if Expired(logs[0], threshold) && id == logs[0].id {
      assert logs[0].id == id;
    } else {
      var limit' := if Expired(logs[0], threshold) then limit - 1 else limit;
      ExpiredIdsAreIds(logs[1..], threshold, limit', id);
      var k :| 0 <= k < |logs[1..]| && logs[1..][k].id == id;
      assert logs[k + 1].id == id;
    }
  }

  /** Deleting the first `limit` expired ids removes just those rows. */
  lemma {:induction false} DeletingIdsSweeps(logs: seq<Log>, threshold: int, limit: nat)
    requires UniqueLogIds(logs)
    ensures WithoutIds(logs, ExpiredIds(logs, threshold, limit)) == Sweep(logs, threshold, limit)
  {
    if logs == [] {
    } else if limit == 0 {
      WithoutForeignIds(logs, []);
    } else {
      var rest := logs[1..];
      assert forall k | 0 <= k < |rest| :: rest[k].id != logs[0].id;
      if Expired(logs[0], threshold) {
        DeletingIdsSweeps(rest, threshold, limit - 1);
        WithoutAbsentId(rest, logs[0].id, ExpiredIds(rest, threshold, limit - 1));
      } else {
        DeletingIdsSweeps(rest, threshold, limit);
        if logs[0].id in ExpiredIds(rest, threshold, limit) {
          ExpiredIdsAreIds(rest, threshold, limit, logs[0].id);
        }
      }
    }
  }

  lemma {:induction false} SweepShrinks(logs: seq<Log>, threshold: int, n: nat)
    ensures
      var count, removed := CountExpired(logs, threshold), |logs| - |Sweep(logs, threshold, n)|;
      removed == (if count < n then count else n)
      && CountExpired(Sweep(logs, threshold, n), threshold) == count - removed
  {
    if logs != [] && n > 0 {
      SweepShrinks(logs[1..], threshold, if Expired(logs[0], threshold) then n - 1 else n);
    }
  }

  lemma {:induction false} SweepTwice(logs: seq<Log>, threshold: int, m: nat, n: nat)
    ensures Sweep(Sweep(logs, threshold, m), threshold, n) == Sweep(logs, threshold, m + n)
  {
    if logs != [] && m > 0 {
      SweepTwice(logs[1..], threshold, if Expired(logs[0], threshold) then m - 1 else m, n);
    }
  }

  lemma {:induction false} SweepIsSubsequence(logs: seq<Log>, threshold: int, n: nat)
    requires UniqueLogIds(logs)
    ensures UniqueLogIds(Sweep(logs, threshold, n))
    ensures forall log | log in Sweep(logs, threshold, n) :: log in logs
  {
    if logs != [] && n > 0 {
      var rest, n' := logs[1..], if Expired(logs[0], threshold) then n - 1 else n;
      assert forall k | 0 <= k < |rest| :: rest[k].id != logs[0].id;
      SweepIsSubsequence(rest, threshold, n');
      var swept := Sweep(rest, threshold, n');
      forall k | 0 <= k < |swept| ensures swept[k].id != logs[0].id {
        assert swept[k] in rest;
      }
    }
  }

  /** Sweeping at least as often as there are expired logs is the one-shot delete. */
  lemma {:induction false} FullSweep(logs: seq<Log>, threshold: int, n: nat)
    ensures CountExpired(logs, threshold) <= n <==> Sweep(logs, threshold, n) == Unexpired(logs, threshold)
    ensures |Unexpired(logs, threshold)| == |logs| - CountExpired(logs, threshold)
  {
    if logs != [] {
      if Expired(logs[0], threshold) && n > 0 {
        FullSweep(logs[1..], threshold, n - 1);
      } else {
        FullSweep(logs[1..], threshold, n);
      }
    }
    SweepShrinks(logs, threshold, n);
  }

  /** The logs left when the loop is killed after `stop` batches, if it needs more. */
  function Swept(logs: seq<Log>, threshold: int, batch: nat, stop: nat): seq<Log>
    decreases stop
  {
    if stop == 0 || batch == 0 || CountExpired(logs, threshold) == 0 then logs
    else Swept(Sweep(logs, threshold, batch), threshold, batch, stop - 1)
  }

  datatype Report = Report(dryRun: bool, deleted: nat)

  /** `stop` bounds the batches a worker commits before it is killed. The loop ends because every
      batch makes the number of expired logs smaller. */
  method CleanupOldLogs(session: Session<Db>, dryRun: bool, now: int, retentionDays: int, batch: nat, stop: nat)
    returns (report: Report)
    requires session.Idle() && UniqueLogIds(session.committed.logs)
    modifies session
    ensures session.Idle() && report.dryRun == dryRun
    ensures
      var threshold, before := now - retentionDays * 86_400_000, old(session.committed);
      if dryRun then session.committed == before && report.deleted == CountExpired(before.logs, threshold)
      else
        session.committed == before.(logs := Swept(before.logs, threshold, batch, stop))
        && report.deleted == |before.logs| - |session.committed.logs|
  {
    var threshold := now - retentionDays * DAY_MS;
    if dryRun {
      return Report(true, CountExpired(session.working.logs, threshold));
    }
    ghost var before := session.committed;
    var deleted, commits := 0, 0;
    while true
      invariant session.Idle() && session.working == before.(logs := session.working.logs)
      invariant UniqueLogIds(session.working.logs) && commits <= stop
      invariant Swept(session.working.logs, threshold, batch, stop - commits)
                == Swept(before.logs, threshold, batch, stop)
      invariant 0 <= deleted == |before.logs| - |session.working.logs|
      decreases CountExpired(session.working.logs, threshold)
    {
      var ids := ExpiredIds(session.working.logs, threshold, batch);
      if ids == [] || commits == stop {
        break;
      }
      DeletingIdsSweeps(session.working.logs, threshold, batch);
      SweepShrinks(session.working.logs, threshold, batch);
      SweepIsSubsequence(session.working.logs, threshold, batch);
      session.working := session.working.(logs := WithoutIds(session.working.logs, ids));
      session.Commit();
      commits := commits + 1;
      deleted := deleted + |ids|;
    }
    return Report(false, deleted);
  }

  lemma {:induction false} SweptIsSweep(logs: seq<Log>, threshold: int, batch: nat, stop: nat)
    ensures Swept(logs, threshold, batch, stop) == Sweep(logs, threshold, batch * stop)
    decreases stop
  {
    if stop == 0 || batch == 0 {
      assert batch * stop == 0;
    } else if CountExpired(logs, threshold) == 0 {
      NothingToSweep(logs, threshold, batch * stop);
    } else {
      SweptIsSweep(Sweep(logs, threshold, batch), threshold, batch, stop - 1);
      SweepTwice(logs, threshold, batch, batch * (stop - 1));
      assert batch + batch * (stop - 1) == batch * stop;
    }
  }

  lemma {:induction false} NothingToSweep(logs: seq<Log>, threshold: int, n: nat)
    requires CountExpired(logs, threshold) == 0
    ensures Sweep(logs, threshold, n) == logs
  {
    if logs != [] && n > 0 {
      NothingToSweep(logs[1..], threshold, n);
    }
  }

  /** The batched loop, left to finish, leaves exactly what deleting all expired logs at once
      would leave, and reports what a dry run on the same table reports, exactly when the batch
      size is positive or nothing has expired. `stop` as large as the table is no bound at all. */
  lemma BatchesEqualOneShotExactlyWhen(logs: seq<Log>, threshold: int, batch: nat, stop: nat)
    requires CountExpired(logs, threshold) <= stop
    ensures Swept(logs, threshold, batch, stop) == Unexpired(logs, threshold)
            <==> batch > 0 || CountExpired(logs, threshold) == 0
    ensures Swept(logs, threshold, batch, stop) == Unexpired(logs, threshold) ==>
              |logs| - |Swept(logs, threshold, batch, stop)| == CountExpired(logs, threshold)
  {
    SweptIsSweep(logs, threshold, batch, stop);
    FullSweep(logs, threshold, batch * stop);
    if batch > 0 {
      assert batch * stop >= stop;
    }
  }

  /** What is left of all logs: exactly those not older than the threshold. */
  lemma {:induction false} UnexpiredAreTheRest(logs: seq<Log>, threshold: int, log: Log)
    ensures log in Unexpired(logs, threshold) <==> log in logs && log.item.timestamp >= threshold
  {
    if logs != [] {
      UnexpiredAreTheRest(logs[1..], threshold, log);
      assert logs == [logs[0]] + logs[1..];
    }
  }

  /** A loop killed after any number of batches and later run to its end leaves no trace of the kill. */
  lemma InterruptedCleanupResumes(logs: seq<Log>, threshold: int, batch: nat, killed: nat, stop: nat)
    requires batch > 0 && CountExpired(logs, threshold) <= stop
    ensures Swept(Swept(logs, threshold, batch, killed), threshold, batch, stop) == Unexpired(logs, threshold)
  {
    var first, second := batch * killed, batch * stop;
    assert second >= stop;
    SweptIsSweep(logs, threshold, batch, killed);
    SweptIsSweep(Sweep(logs, threshold, first), threshold, batch, stop);
    SweepTwice(logs, threshold, first, second);
    FullSweep(logs, threshold, first + second);
  }
}
