/** The tables for logs, error groups, jobs and analyses (app/models), as one database value.
    Rows are kept in the order of their autoincrement ids. */
module Tables {
  import opened Prelude

  datatype Environment = Development | Staging | Production

  datatype Level = Debug | Info | Warning | Error | Critical

  datatype Severity = LowSeverity | MediumSeverity | HighSeverity | CriticalSeverity

  /** A log as submitted; `metadata` is not modelled. */
  datatype Item = Item(
    service: string, environment: Environment, level: Level, message: string,
    exceptionType: Option<string>, stackTrace: Option<string>, timestamp: int)

  datatype Log = Log(
    id: nat, item: Item, normalized: string, fingerprint: Option<Digest>, groupId: Option<nat>,
    createdAt: int)

  /** The columns of the unique index on error groups. */
  datatype GroupKey = GroupKey(service: string, environment: Environment, fingerprint: Digest)

  datatype Group = Group(
    id: nat, key: GroupKey, title: string, exceptionType: Option<string>, firstSeen: int,
    lastSeen: int, count: nat, severity: Severity)

  datatype JobType = BulkLogIngest | ErrorGroupAnalysis

  datatype JobStatus = Pending | Running | Completed | Failed | PartiallyCompleted

  /** The digest of a batch of submitted logs; two batches have one digest only if they are equal. */
  datatype RequestHash = RequestHash(logs: seq<Item>)

  datatype ItemFailure = ItemFailure(index: nat, error: string)

  datatype Payload =
    | BulkPayload(requestHash: RequestHash, logs: seq<Item>, failures: seq<ItemFailure>)
    | AnalysisPayload(groupId: nat, requestedBy: nat)

  datatype Summary = ItemsFailed(count: nat) | AnalysisFailed | GroupNotFound

  datatype Job = Job(
    id: string, jobType: JobType, status: JobStatus, payload: Payload, total: nat, processed: nat,
    success: nat, failure: nat, idempotencyKey: Option<string>, scopeKey: Option<string>,
    startedAt: Option<int>, completedAt: Option<int>, errorSummary: Option<Summary>)

  datatype AnalysisStatus = AnalysisPending | AnalysisCompleted | AnalysisUnsuccessful

  datatype Analysis = Analysis(groupId: nat, status: AnalysisStatus, createdBy: nat)

  /** Which request or job inserted a log. */
  datatype Origin = Single | Bulk(jobId: string)

  datatype Entry = Entry(log: Log, origin: Origin)

  /** `history` lists every log ever inserted, also those deleted since. No operation reads it. */
  datatype Db = Db(
    groups: seq<Group>, nextGroupId: nat, logs: seq<Log>, nextLogId: nat, jobs: seq<Job>,
    analyses: seq<Analysis>, history: seq<Entry>)

  const EMPTY := Db([], 1, [], 1, [], [], [])

  /** The primary key of the logs table. */
  ghost predicate UniqueLogIds(logs: seq<Log>) {
    forall i, j | 0 <= i < j < |logs| :: logs[i].id != logs[j].id
  }

  function KeyOf(log: Log): Option<GroupKey> {
    match log.fingerprint
    case None => None
    case Some(digest) => Some(GroupKey(log.item.service, log.item.environment, digest))
  }
}
