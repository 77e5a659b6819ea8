# LogLens model

LogLens ingests application logs, groups errors by fingerprint, and guards its API with rotating
refresh tokens. This project models its stateful core and proves what holds over every run of it:

- refresh token rotation: one usable token per family, each redeemed at most once, replay ends the family;
- bulk ingestion and background jobs: crash consistency, idempotency keys, scope locks, redelivery;
- error groups as an aggregate over every log ever ingested, under rollbacks, deletions and cleanups;
- the login limiter under concurrent attempts, with a tight bound on failures per interval;
- batched cleanup, paged listing, fingerprint normalisation and the analytics snapshot.

## How it is built

Each operation is first a function on the committed database (`Auth`, `Logs`, `Jobs`,
`BulkIngestion`, `AnalysisJobs`, `RateLimit`). Where the source changes state, a class beside that
function has the source's shape: a session with pending and committed state, repositories that
change rows, a loop that commits one item at a time. Its methods are proved to compute the function,
for every input. The theorems are then about runs of these functions: `AuthRuns` and `Service` say
what a run is, `AuthTheorems`, `RateLimitRuns`, `GroupTheorems`, `JobRuns` and `JobTheorems` what
every run keeps. References the theorems compare with (the history of all logs ever ingested,
a one-shot delete, a count within an interval, the filters and orders column by column, a text word
by word in `FingerprintLaws`) are defined without the code they judge.

## Assumptions

- `uuid4` never gives an empty text, and a login's family identifier is not one already in use. A
  clashing token identifier is allowed for: the unique index on `jti_hash` aborts the step.
- SHA-256 has no collisions on the values used: digests are constructors over their texts.
- Decoding accepts only payloads the service signed. The JWT library compares whole seconds, so in
  the second in which a token expires its verdict is an arbitrary parameter, `tolerated`.
- The clock never goes back, and one call reads it once. Times are whole milliseconds.
- Service calls and task deliveries run one at a time. Only limiter attempts interleave.
- A statement that would break a unique index aborts its transaction.
- A killed worker loses what it has not committed. Where it dies, which items raise and what the
  provider answers are arbitrary parameters.
- Row positions stand for the order of the autoincrement ids. The id sequence of groups moves on at
  every upsert, as PostgreSQL's does.
- Python's character classes are arbitrary predicates with the few facts in `Chars.Sound`, such as
  digits being word characters. All normalisation passes before the long-number pass are one
  arbitrary function. Where a trace's lines are counted, it is assumed never to turn text into blank
  text (`EarlierKeepsText`), since each pass puts a placeholder for what it matches.
- `ILIKE` is an arbitrary predicate on texts. `ceil` of a quotient and SQL's `avg` are exact.

## Where the code differs from what is said of it

- ENVIRONMENT_VARIABLES.md:23 calls the limiter's window rolling. The code opens a fixed window at
  the first failure, so almost twice the limit fits in an interval of one window length;
  `RateLimitRuns.RollingWindowExactlyWhen` gives the only setting in which the two agree.
- ARCHITECTURE.md:79 calls the worker's chunks idempotent. A redelivered job starts again at its
  first item and keeps what the killed delivery committed;
  `JobTheorems.RedeliveryRepeatsExactlyWhen` says of whole runs exactly when that inserts too much.
- `first_seen` and `last_seen` are the first and the latest arrival, not the least and the greatest
  timestamp; `GroupTheorems.SpanIsExactAfterIngestExactlyWhen` tells when they agree, and
  `GroupTheorems.TimeFilterIsCompleteExactlyWhen` that the time filter depends on it.
- Logout revokes the record of the presented token only, so presenting an already rotated token
  leaves its family usable (`AuthTheorems.LogoutEndsTheFamilyExactlyWhen`).
- An expired record keeps its successor link until its own token is presented and still decodes;
  then the link is cleared (`AuthTheorems.OtherRefusalsTouchOneRecord`). Links lead from one record of
  a family to a later one exactly while none of the records in between has lost its own
  (`AuthTheorems.FollowReachesExactlyWhen`).
- The fingerprint joins its parts with a separator that the parts may contain, so two logs of one
  service that differ in message and exception type can share a group
  (`GroupTheorems.SeparatorsMergeGroups`). Two logs in one group agree exactly when their parts hold
  equally many separators (`GroupTheorems.GroupsSeparateExactlyWhen`).
- If Redis loses the one call that sets a counter's expiry, the key stays locked: a run that gets
  there is `RateLimitRuns.LostExpiryLocksOut`, the exact condition `RateLimitRuns.LockedOutExactlyWhen`.

## Model

| member | source | states |
|---|---|---|
| AuthTheorems.ReplayEndsTheFamily | app/services/auth.py:119-138 | presenting an unexpired, already revoked token is refused and leaves its family without a live record, whether or not the revoking branch runs; only live records of that family change, and then they are marked as reused |
| AuthTheorems.RedeemedAtMostOnce | app/services/auth.py:119-168 | after a token was granted once it is refused in every later state of every run, and while unexpired that second use ends its family |
| AuthTheorems.OneLiveRecordPerFamily | app/services/auth.py:100-186 | in every reachable state a family has at most one unrevoked record, and it is the last one created in the family |
| AuthTheorems.Follow | app/services/auth.py:144-158 | following successor links from any record moves strictly forward to the next record of the same family and user, and ends |
| AuthTheorems.FollowReachesExactlyWhen | app/services/auth.py:144-158 | following links from a record reaches a later record of its family if and only if every record of the family in between still has its link |
| AuthTheorems.FollowVisitsTheRest | app/services/auth.py:124-126 | hence every record up to and including the first expired one is reached |
| AuthTheorems.SuccessorsAreNotShared | app/services/auth.py:147-151 | no record is the successor of two others |
| AuthTheorems.EndedForever | app/services/auth.py:119-186 | a family without a live record never has one again in any continuation of the run, gains no record, and keeps those it had |
| AuthTheorems.EndedFamilyNeverRefreshes | app/services/auth.py:119-168 | no token of an ended family is ever granted again |
| AuthTheorems.RevokedStaysRevoked | app/repositories/refresh_token.py:39-79 | a revoked record stays in its place, keeps its identity and stays revoked in every run |
| AuthTheorems.OtherRefusalsTouchOneRecord | app/services/auth.py:124-142 | a refusal that is not a replay changes nothing, except that an expired token which still decodes has its record revoked and its successor link cleared |
| AuthTheorems.LogoutEndsTheFamilyExactlyWhen | app/services/auth.py:170-179 | logout ends the token's family exactly when the token's record was the live one or the family had ended before; it changes no other record |
| AuthTheorems.LogoutKnowsExactly | app/services/auth.py:170-174 | logout answers that a token is known if and only if the service issued it and it still decodes; for any other text it changes nothing |
| AuthTheorems.LogoutAllEndsExactly | app/services/auth.py:181-186 | the logout-all step leaves the user no live record, ends exactly the user's families, beside those already ended, and changes no other user's record |
| AuthTheorems.LogoutAllEndsEveryToken | app/services/auth.py:181-186 | after a logout-all no refresh token issued before for this user is ever granted again, however the run goes on |
| AuthTheorems.LiveTokenStaysUsable | app/services/auth.py:119-186 | through any run that presents and signs out no token of its family and holds no logout-all of its user a live record stays untouched; its token is then granted if and only if it is unexpired and its user active (and the new identifier unused) |
| AuthTheorems.LoginThenRefreshIsGranted | app/services/auth.py:100-168 | the same for the token of a login, after any run that neither presents nor signs out this one token and holds no logout-all of the user |
| AuthRuns.RunKeepsInv | app/services/auth.py:100-186 | every run keeps: unique hashes, one user per family, links to the next record, later records only behind revoked ones, and claims of every issued token agreeing with its record |
| AuthRuns.LookupFindsOwnRecord | app/services/auth.py:62-78 | in reachable states an issued token names its own record, and the user and family of its claims are the record's |
| AuthRuns.LookupNamesAnIssuedToken | app/services/auth.py:62-78 | whatever is presented, a record is found only for the token issued with that record |
| AuthRuns.RefreshGrantsExactlyWhen | app/services/auth.py:119-168 | a refresh is granted if and only if the record is unexpired and live, its user is active and the new identifier is unused; a grant revokes and links that record and adds exactly one new one, whose token it hands out |
| AuthTheorems.RefreshedAccessNamesTheUser | app/services/auth.py:160-168 | the access token of a granted refresh decodes to the presented record's user, for exactly the access lifetime from the grant on (or as long as the library tolerates it) |
| AuthTheorems.LoginAccessNamesTheUser | app/services/auth.py:43-60 | the access token of a login decodes to the user who logged in, for exactly the access lifetime |
| AuthRuns.LoginEffect | app/services/auth.py:43-60 | a login whose identifier is unused adds one record and issues that record's own token; otherwise nothing changes |
| Security.RefreshTokenRoundTrip | app/core/security.py:61-126 | decoding gives back exactly the claims encoded until the lifetime has passed, given identifiers are kept and absent or empty ones replaced, and neither kind of token is accepted as the other, even under one signing key |
| Security.AccessTokenRoundTrip | app/core/security.py:48-103 | decoding an access token gives its subject back until it expires |
| Auth.AuthService.LoginUser | app/services/auth.py:100-117 | all outcomes of a login attempt: the reply, the committed tables, the limiter's counter for this key, and that every other key is untouched |
| Auth.AuthService.IssueTokenPair | app/services/auth.py:43-60 | the pending tables and the reply are those of issuing a pair for a new family |
| Auth.AuthService.FindRecord | app/services/auth.py:62-78 | finds what the decoded claims name, with an error for each failing check |
| Auth.AuthService.RefreshSession | app/services/auth.py:119-168 | leaves nothing uncommitted, and commits and answers exactly what the refresh function specifies |
| Auth.AuthService.LogoutSession | app/services/auth.py:170-179 | commits exactly what the logout function specifies |
| Auth.AuthService.LogoutEverywhere | app/services/auth.py:181-186 | commits exactly the revocation of the user's live records |
| RefreshTokens.RefreshTokenRepository.CreateToken | app/repositories/refresh_token.py:16-33 | appends the record unless its hash is already stored, and then changes nothing |
| RefreshTokens.RefreshTokenRepository.RevokeToken | app/repositories/refresh_token.py:39-51 | the one record is revoked, its link overwritten even when the argument is left out, all others unchanged |
| RefreshTokens.RefreshTokenRepository.RevokeFamily | app/repositories/refresh_token.py:53-70 | afterwards no record of the family is live; records of other families and those revoked before are as they were; one revoked now keeps all but its revocation time and, on demand, its reuse time |
| RefreshTokens.RefreshTokenRepository.RevokeAllForUser | app/repositories/refresh_token.py:72-79 | afterwards the user has no live record; records of other users and those revoked before are as they were |
| RateLimitRuns.CounterPlusInFlightBounded | app/core/rate_limit.py:51-76 | with at most n attempts under way, in any interleaving of their calls to Redis, counter plus attempts between check and outcome never exceeds max - 1 + n, across expiry, clearing and lost writes |
| RateLimitRuns.FailuresPerInterval | app/core/rate_limit.py:51-70 | at most 2 * (max - 1 + n) - 1 attempts that pass the check and fail lie in any interval of one window length, also when other attempts run between the increment and the expiry; 2 * max - 1 for one attempt at a time |
| RateLimitRuns.FailuresPerIntervalReached | app/core/rate_limit.py:51-70 | for every limit and every n some run reaches that bound |
| RateLimitRuns.RollingWindowExactlyWhen | ENVIRONMENT_VARIABLES.md:22-23 | the documented rolling window holds over all runs if and only if the limit is one and attempts come one at a time |
| RateLimitRuns.LockedOutExactlyWhen | app/core/rate_limit.py:63-70 | a refused key is refused in every continuation without a successful clear if and only if its counter has no deadline and no attempt is left to set one |
| RateLimitRuns.LostExpiryLocksOut | app/core/rate_limit.py:63-70 | for every limit and every n a run from an empty counter reaches that state, with one attempt at a time and one lost call |
| RateLimitRuns.FailureInTwoMoves | app/core/rate_limit.py:63-70 | with no other attempt in between, increment and expiry as two moves leave what the one call of `add_failure` leaves |
| RateLimit.RedisLoginRateLimiter.IsAllowed | app/core/rate_limit.py:51-61 | a failing call and a missing counter let the attempt through; otherwise it is allowed if and only if the counter is below the limit or its deadline has come |
| RateLimit.RedisLoginRateLimiter.AddFailure | app/core/rate_limit.py:63-70 | the first count sets a deadline `window_seconds` ahead, later counts keep it; a failing increment changes nothing, and no other key ever changes |
| RateLimit.RedisLoginRateLimiter.Clear | app/core/rate_limit.py:72-76 | afterwards this key has no counter, or the one it had if the call fails; no other key changes |
| RateLimit.RedisLoginRateLimiter.KeysDiffer | app/core/rate_limit.py:48-49 | two callers never share a counter |
| RateLimitRuns.SuccessResets | app/services/auth.py:114 | after a successful login the key is open in every continuation, under any interleaving, in which fewer than `max_attempts` attempts fail |
| JobTheorems.InsertedLogsAreTheSumOfSuccesses | app/workers/tasks/log_tasks.py:71-97 | over any run with any number of deliveries, each killed anywhere, the logs a job has inserted number exactly the sum of the successes its deliveries committed |
| JobTheorems.DeliveryInsertsItsPrefix | app/workers/tasks/log_tasks.py:71-97 | a delivery killed after any number of commits has inserted exactly the succeeding items of the prefix it got through, in order, and nothing of any other job; its row counts that prefix |
| JobTheorems.DeliveredRowRecordsFaults | app/workers/tasks/log_tasks.py:79-97 | the failures in the job's row are exactly the processed items that raised, in ascending order, each with the first 200 characters of its error; the start and completion times are those of the commits |
| JobTheorems.ItemIsStored | app/workers/tasks/log_tasks.py:80-83 | a succeeding item is stored as submitted, under the next id and dated at its own commit |
| JobTheorems.ExactlyOnce | app/workers/tasks/log_tasks.py:67-113 | however many uninterrupted deliveries a run holds, each succeeding item of the first is inserted exactly once, and the status is completed exactly when none failed, else partially completed |
| JobTheorems.UninterruptedDeliveryFinishes | app/workers/tasks/log_tasks.py:99-113 | a delivery run to its end never fails the job: completed if and only if no item failed, else partially completed |
| JobTheorems.FinishedJobInsertsNoMore | app/workers/tasks/log_tasks.py:67-69 | in every continuation a finished job's row never changes and nothing more is inserted for it |
| JobTheorems.RunInsertsWhatItDelivers | app/workers/tasks/log_tasks.py:67-113 | over any run a job inserts exactly the prefixes its deliveries got through, in order, up to the first complete one, which ends it with its own counts and status |
| JobTheorems.RedeliveryRepeatsExactlyWhen | ARCHITECTURE.md:76-80 | a job brought to its end by any run has inserted just the succeeding items of its last delivery if and only if no delivery killed before committed a success; that is, if and only if the successes reported by all its deliveries sum up to the final row's success count |
| JobTheorems.KeyAnswersForever | app/services/jobs.py:30-44 | once a key has a batch job, in every later state the same batch is answered with that job, a different one is refused, and neither changes anything |
| JobTheorems.NewBatchIsAccepted | app/services/logs.py:118-151 | a batch under a new key, or without a key, is always accepted, with a pending job of its own holding the batch; an empty batch is not |
| JobTheorems.SubmittedBatchRunsOnce | app/services/logs.py:118-151 | such a batch, delivered uninterrupted any number of times amid any other steps, has each succeeding item inserted once; under a key one job answers every resubmission |
| JobTheorems.RequestIsRefusedExactlyWhen | app/services/analysis.py:21-34 | a request to analyse a group is refused if and only if a pending or running job analyses this very group, and then changes nothing; otherwise it adds one pending job for the group and the requester |
| JobTheorems.RestartIsAbortedExactlyWhen | app/workers/tasks/analysis_tasks.py:84-101 | redelivering an unfinished analysis job changes nothing if and only if another active job analyses its group; that happens only to a failed job, and without the index two active jobs would share the group |
| JobTheorems.AnalysisDeliveryRow | app/workers/tasks/analysis_tasks.py:87-178 | killed between its commits a delivery leaves one pending analysis of the requester and a running job; otherwise job and analysis are settled by the provider's answer, with counters, error summary and times |
| JobTheorems.AnalysisWithoutGroupFails | app/workers/tasks/analysis_tasks.py:91-95 | without its group the job fails in its only commit with its own error summary, and no analysis is added |
| JobTheorems.ScopeLockedUntilRedelivered | app/workers/tasks/analysis_tasks.py:87-101 | a worker killed between its commits leaves its group locked against new requests until a redelivery ends, and free after it; requests for any other group are answered as before |
| JobTheorems.AnalysesAreCounted | app/workers/tasks/analysis_tasks.py:97-101 | over any run a group gains one analysis per delivery that begins, those killed after their first commit stay pending for good, and no earlier analysis changes |
| AnalysisJobs.ScopesDiffer | app/services/analysis.py:32 | two groups never share a scope key |
| JobRuns.RunKeepsJobs | migrations/versions/20260723_04_create_background_jobs_and_error_analyses.py:92-105 | over every run: at most one active job per type and scope, at most one job per type and key, counters and times that fit the status, and rows whose request, first start and final state never change |
| JobRuns.JobsStayUnique | migrations/versions/20260723_04_create_background_jobs_and_error_analyses.py:92-105 | from an empty database on, no two pending or running jobs of one type share a scope, and no two jobs share a type and key, or an id |
| JobRuns.StepKeepsJobs | app/services/jobs.py:30-64 | every single step, redeliveries that restart failed jobs included, keeps the above |
| JobRuns.CreationNeverHitsAnIndex | app/services/jobs.py:30-61 | with an unused id the service refuses a duplicate before insertion, so creating a job never runs into a unique index |
| JobRuns.BulkDelivery | app/workers/tasks/log_tasks.py:71-113 | a delivery changes the job table in its own row only and never meets a unique index; the row and the history it leaves after any number of commits |
| JobRuns.DeliveredRowIsOk | app/services/jobs.py:91-97 | processed is success plus failure and at most the total; a finished job has processed all, and is completed if and only if nothing failed |
| Jobs.JobService.Create | app/services/jobs.py:20-64 | commits and answers exactly what the creation function specifies, conflicts included |
| Jobs.BackgroundJobRepository.MarkRunning | app/repositories/background_job.py:72-81 | sets running and the first start time on the one row, unless a unique index refuses it, and then changes nothing |
| BulkIngestion.BulkWorker.Process | app/workers/tasks/log_tasks.py:54-134 | for every fault pattern and every place to be killed, the committed state is exactly the delivery function's |
| BulkIngestion.BulkWorker.ProcessStarted | app/workers/tasks/log_tasks.py:74-113 | the commit loop: after each commit exactly one more item of the batch is settled, and the end row is written last |
| BulkIngestion.BulkWorker.ProcessItem | app/workers/tasks/log_tasks.py:79-97 | a raising item leaves no trace but its failure entry; a succeeding one is inserted; progress is pending with it |
| BulkIngestion.Prefix | app/workers/tasks/log_tasks.py:79-97 | the first n commits change the job table in one row only, and nothing before the first commit |
| AnalysisJobs.AnalysisWorker.Process | app/workers/tasks/analysis_tasks.py:66-180 | for every answer of the provider and every place to be killed, the committed state is exactly the delivery function's |
| AnalysisJobs.LatestFor | app/repositories/error_analysis.py:28-36 | finds the last created analysis of the group, and none only if it has none |
| GroupTheorems.GroupsConserve | app/repositories/error_group.py:33-59 | after any run from an empty database each group's counter is the number of logs ever committed under its key, at least the number still pointing to it; keys and ids are unique |
| Conservation.RunKeepsGroups | app/services/logs.py:71-116 | every run keeps each group's columns equal to what the full history gives, and every log ever ingested filed under its own group if and only if its level is warning, error or critical |
| GroupTheorems.GroupedExactlyWhenGrave | app/services/logs.py:39-95 | over every run each log ever ingested has a group and a fingerprint if and only if its level is warning, error or critical |
| GroupTheorems.GroupDescribesItsLatestLog | app/services/logs.py:56-69 | each group carries time, exception type, severity and title of the latest log of its key, severity by the three levels and title as the first 512 characters of a non-empty exception type, else of the normalised message, and dates from the first |
| Conservation.DeliveryKeepsGroups | app/workers/tasks/log_tasks.py:79-97 | bulk deliveries with items rolled back to their savepoints, killed anywhere, keep the aggregate in step with the history |
| Conservation.RemovalKeepsGroups | app/services/logs.py:159-162 | deletions and cleanups change the logs table only and keep the aggregate's invariant |
| GroupTheorems.InOrderArrivalSpans | app/repositories/error_group.py:43-56 | logs arriving with nondecreasing timestamps make first and last seen the least and greatest timestamp ever ingested for the group |
| GroupTheorems.SpanIsExactAfterIngestExactlyWhen | app/services/logs.py:86-95 | after one more log a group's span is exact if and only if the log is no older than `first_seen` and every earlier log lies between `first_seen` and it, whatever the span was before |
| GroupTheorems.IngestKeepsSpanExactlyWhen | app/repositories/error_group.py:49-56 | so an exact span stays exact if and only if the log is no older than `last_seen` |
| GroupTheorems.GroupGainsLog | app/repositories/error_group.py:49-56 | a log of an existing group changes that group's latest columns and counter, never its first time or its key, and no other group |
| GroupTheorems.TimeFilterFindsTheGroup | app/repositories/error_group.py:100-103 | under in-order arrival the from/to filter returns every group that ever had a log in the range |
| GroupTheorems.TimeFilterIsCompleteExactlyWhen | app/repositories/error_group.py:100-103 | the from/to filter never misses the group, for any range holding one of its logs, if and only if the group's span is exact |
| GroupTheorems.OlderLogHidesTheGroup | app/repositories/error_group.py:49-56 | a log older than `last_seen` makes the filter miss the group for a range in which it has a log |
| Logs.UpsertFilesUnderItsKey | app/repositories/error_group.py:21-62 | the returned id is that of the key's group, with the latest columns; a known group counts one more and keeps its id and first time, a new one starts from one; no other group changes and keys stay unique |
| Conservation.LogRowsAfter | app/repositories/log.py:22-27 | a created log's id lies above every id ever used, and the logs table stays in id order and within the history |
| Logs.LogService.Persist | app/services/logs.py:71-110 | the pending state after success or after an exception at any of its statements |
| Logs.LogService.Ingest | app/services/logs.py:112-116 | a single ingest is committed as a whole or not at all |
| Logs.LogService.Delete | app/services/logs.py:159-162 | removes exactly the named log, or reports that there is none |
| Logs.DeletionRemovesExactly | app/services/logs.py:153-162 | a deletion answers whether the id was stored, removes that one log, and leaves all others in order and everything else as it was |
| GroupTheorems.IngestStoresTheLog | app/services/logs.py:97-116 | an ingest stores the submitted log unchanged under the next id, with its creation time |
| Cleanup.CleanupOldLogs | app/workers/tasks/cleanup_tasks.py:24-72 | terminates; the dry run counts and changes nothing; the loop changes the logs table only, and reports the number of rows gone |
| Cleanup.BatchesEqualOneShotExactlyWhen | app/workers/tasks/cleanup_tasks.py:50-64 | the finished loop leaves exactly the one-shot delete's state if and only if the batch size is positive or nothing has expired, and then reports the dry run's number |
| Cleanup.InterruptedCleanupResumes | app/workers/tasks/cleanup_tasks.py:50-64 | a loop killed after any number of batches and run again to its end leaves the one-shot delete's state |
| Cleanup.DeletingIdsSweeps | app/workers/tasks/cleanup_tasks.py:51-62 | deleting the selected ids removes exactly the first expired rows up to the batch size |
| Cleanup.UnexpiredAreTheRest | app/workers/tasks/cleanup_tasks.py:33-54 | the logs left are exactly those not older than the threshold |
| Listing.PagesPartitionTheListing | app/services/logs.py:180-205 | pages one to the last give the whole listing in order without gaps or repeats; every page before the last is full, the last is not empty, every later one is |
| Listing.ListingIsTheFilteredTable | app/repositories/log.py:33-79 | the listing holds each stored log that matches the filters exactly once and nothing else, in the only order by column and id |
| Listing.ListedExactlyWhenMeets | app/repositories/log.py:50-79 | the pages hold exactly the stored logs that meet every filter, column by column, the text being looked for in the log and in its own group |
| Listing.PagesAreInColumnOrder | app/services/logs.py:164-178 | on every page the items stand in the order of the requested column, levels in the order of their enumeration, and then of the id |
| Listing.JoinAddsNoRows | app/repositories/log.py:45-49 | the outer join on the group's primary key yields one row per log, in order, with its own group whenever that exists and no other |
| Listing.DescendingReversesAscending | app/services/logs.py:164-178 | the descending listing is the exact reverse of the ascending one |
| FingerprintTheorems.LineNumbersDoNotMatter | app/services/fingerprint.py:60-87 | traces that differ only in the line numbers of frames normalise to the same text and give the same fingerprint |
| FingerprintTheorems.FrameNumberIsDropped | app/services/fingerprint.py:27-29 | substitution in a stripped frame line replaces its number, whatever it is, and nothing else |
| FingerprintTheorems.NormalizedMessageIsClean | app/services/fingerprint.py:40-57 | whatever the earlier passes do, no leading, trailing or repeated white space and no word-bounded run of five or more digits remains |
| FingerprintTheorems.NormalizedTraceSplitsBack | app/services/fingerprint.py:60-76 | splitting a normalised trace at newlines gives back its lines, one non-empty line per non-blank input line, none with a digit after a colon |
| FingerprintLaws.MessageIsNormalizedWordByWord | app/services/fingerprint.py:40-53 | after the earlier passes a message is its words joined by single blanks, with long numbers substituted within each word |
| FingerprintLaws.NumberIsReplacedExactlyWhenLong | app/services/fingerprint.py:22 | a whole run of word characters becomes `<number>` if and only if it is five or more digits, and stays as it is otherwise |
| FingerprintLaws.NumbersSplit | app/services/fingerprint.py:51 | characters outside words part the text for this substitution, and stay |
| FingerprintLaws.MatchedFrameIsOne | app/services/fingerprint.py:27-29 | what is taken for a stack frame consists of a quoted path, a number and a name up to the end of the line |
| FingerprintLaws.FrameThenRest | app/services/fingerprint.py:69-72 | in a frame only the number is replaced, and the text behind it follows the same rule |
| FingerprintLaws.FramesExactly | app/services/fingerprint.py:69-72 | up to its first frame a line is left alone |
| FingerprintLaws.ColonNumbersExactly | app/services/fingerprint.py:74 | up to its first colon a text is left alone, and a number right after the colon is replaced |
| FingerprintLaws.FramelessLine | app/services/fingerprint.py:66-75 | a line without frames is normalised like a message before its colon numbers are replaced |
| FingerprintLaws.LinesOneByOne | app/services/fingerprint.py:64-76 | a trace's lines are normalised one by one, in order, and exactly the blank ones are left out |
| FingerprintLaws.SplitLinesExactly | app/services/fingerprint.py:65 | a text splits at its first line break and nowhere before |
| FingerprintLaws.SplitLinesAtPair | app/services/fingerprint.py:65 | a carriage return with a newline is one line break |
| FingerprintLaws.SplitLinesOfOne | app/services/fingerprint.py:65 | a text without line breaks is one line, unless it is empty |
| FingerprintLaws.StripExactly | app/services/fingerprint.py:41-53 | stripping takes away exactly the white space on both sides |
| FingerprintTheorems.FingerprintsSeparateExactlyWhen | app/services/fingerprint.py:79-87 | for all reports: service, message, exception type and normalised trace agree if and only if the fingerprints agree and service, message and exception type hold equally many separators each |
| FingerprintTheorems.SeparatorsRunTogether | app/services/fingerprint.py:86 | two reports of one service that differ in message and exception type get one fingerprint |
| GroupTheorems.LogsShareAGroupExactlyWhen | app/services/logs.py:77-95 | in every reachable database two logs share a group if and only if service, environment and fingerprint agree |
| GroupTheorems.GroupsSeparateExactlyWhen | app/services/logs.py:77-95 | of logs of one service and environment: message, exception type and normalised trace agree if and only if they share a group and hold equally many separators |
| GroupTheorems.SeparatorsMergeGroups | app/services/logs.py:71-116 | ingested into any database, two logs with different messages and exception types end up in one group |
| Fingerprint.NormalizeTraceByLines | app/services/fingerprint.py:60-76 | the loop over lines computes the joined normalised lines, blank lines skipped |
| Analytics.BreakdownsSumToTheDay | app/workers/tasks/analytics_tasks.py:42-62 | each breakdown has one row per occurring key with its exact count, and sums to the logs of the last day, which are all logs but the older ones |
| Analytics.GroupByIsABreakdown | app/workers/tasks/analytics_tasks.py:48-62 | grouping counts every key exactly once and conserves the total |
| Analytics.AverageCountsEveryGroupedLog | app/workers/tasks/analytics_tasks.py:79-83 | the average times the number of groups is the sum of the counters, hence the number of all grouped logs ever ingested |
| Analytics.MostFrequentGroups | app/workers/tasks/analytics_tasks.py:73-77 | the list holds min(10, n) groups by count descending, then id ascending, and every group left out comes after all listed |

## Left out

- FingerprintTheorems.NormalizedMessageIsClean: the UUID, timestamp, date, e-mail, IP, address, request id, label and hex passes are arbitrary, so nothing is said of what they replace.
- JobTheorems.AnalysesAreCounted: counts by group, because an analysis row does not name the job that created it.
- Analytics.BreakdownsSumToTheDay: the number of unresolved groups and the copy of the snapshot in Redis are not modelled.
- GroupTheorems.TimeFilterFindsTheGroup: the other filters of the group listing, and its paging, are not modelled; they repeat those of the log listing.
- Overlapping transactions on the same rows or the same job: the code takes no row locks, and calls are modelled as serial.
- Registration, password hashing, roles, user management, group status and assignment: each is settled by reading one branch.
- JWT signing, SHA-256, SQL, Redis and Celery themselves: abstract values, maps, an atomic commit and a redelivery step.
- AI providers, prompts and the text of analyses: only the status of an analysis is kept.
- Log metadata, job creator and Celery task id: columns that no modelled decision reads.
- The Redis copy of an idempotency key (app/services/logs.py:143-149): nothing reads it.
- `reset_all` of the limiter, `set_job_failed` and `fail_and_ignore`: no modelled run calls them.
- Routes, middleware, response schemas, settings, metrics, tracing and logging.
