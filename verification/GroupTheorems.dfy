/** What the group aggregate tells a reader: the counter conserves every ingested log, and the span
    of a group is exact just as long as its logs arrive in order. */
module GroupTheorems {
  import opened Prelude
  import opened Fingerprint
  import opened FingerprintTheorems
  import opened Tables
  import opened Logs
  import opened Service
  import opened Conservation

  /** Conservation from an empty database, over every run. */
  lemma GroupsConserve(rules: Rules, steps: seq<Step>, i: nat)
    requires i < |Run(rules, EMPTY, steps).groups|
    ensures
      var db := Run(rules, EMPTY, steps);
      var group := db.groups[i];
      && Summarises(group, db.history)
      && group.count == Occurrences(db.history, group.key)
      && CountFiled(db.logs, group.id) <= group.count
      && forall j | 0 <= j < |db.groups| && j != i :: db.groups[j].key != group.key && db.groups[j].id != group.id
  {
    RunKeepsGroups(rules, EMPTY, steps);
    var db := Run(rules, EMPTY, steps);
    assert db.history[..|db.history|] == db.history;
    RemainingLogsAreCounted(rules, db, i, db.logs, |db.history|);
    forall j | 0 <= j < |db.groups| && j != i
      ensures db.groups[j].key != db.groups[i].key && db.groups[j].id != db.groups[i].id
    {
      if j < i {
        assert db.groups[j].id < db.groups[i].id;
      } else {
        assert db.groups[i].id < db.groups[j].id;
      }
    }
  }

  /** How many stored logs point to a group. */
  function CountFiled(logs: seq<Log>, groupId: nat): nat {
    if logs == [] then 0
    else
      var last := |logs| - 1;
      CountFiled(logs[..last], groupId) + if logs[last].groupId == Some(groupId) then 1 else 0
  }

  lemma {:induction false} OccurrencesGrow(history: seq<Entry>, m: nat, n: nat, key: GroupKey)
    requires m <= n <= |history|
    ensures Occurrences(history[..m], key) <= Occurrences(history[..n], key)
    decreases n
  {
    if m < n {
      assert history[..n][..n - 1] == history[..n - 1];
      OccurrencesGrow(history, m, n - 1, key);
    }
  }

  lemma FiledUnderItsKey(rules: Rules, db: Db, i: nat, k: nat)
    requires GroupRows(db.groups, db.nextGroupId) && Aggregates(rules, db.groups, db.history)
    requires i < |db.groups| && k < |db.history| && db.history[k].log.groupId == Some(db.groups[i].id)
    ensures KeyOf(db.history[k].log) == Some(db.groups[i].key)
  {
    hide Summarises, NormalizeCommon, FingerprintOf;
    var log := db.history[k].log;
    assert Filed(rules, db.groups, log);
    var j :| 0 <= j < |db.groups| && KeyOf(log) == Some(db.groups[j].key) && log.groupId == Some(db.groups[j].id);
    assert db.groups[j].id == db.groups[i].id;
  }

  /** In tables kept in id order, the logs before the last lie in the history before its place. */
  lemma EarlierLogsLieEarlier(logs: seq<Log>, history: seq<Entry>, n: nat) returns (k: nat)
    requires n <= |history| && logs != []
    requires forall a, b | 0 <= a < b < |history| :: history[a].log.id < history[b].log.id
    requires forall a, b | 0 <= a < b < |logs| :: logs[a].id < logs[b].id
    requires forall a | 0 <= a < |logs| :: InHistory(logs[a], history[..n])
    ensures k < n && history[k].log == logs[|logs| - 1]
    ensures forall a | 0 <= a < |logs| - 1 :: InHistory(logs[a], history[..k])
  {
    var last := |logs| - 1;
    assert InHistory(logs[last], history[..n]);
    k :| 0 <= k < n && history[..n][k].log == logs[last];
    forall a | 0 <= a < last ensures InHistory(logs[a], history[..k]) {
      assert InHistory(logs[a], history[..n]);
      var m :| 0 <= m < n && history[..n][m].log == logs[a];
      assert history[m].log.id < history[k].log.id;
      assert history[..k][m].log == logs[a];
    }
  }

  lemma {:induction false} RemainingLogsAreCounted(rules: Rules, db: Db, i: nat, logs: seq<Log>, n: nat)
    requires GroupInv(rules, db) && i < |db.groups| && n <= |db.history|
    requires forall a, b | 0 <= a < b < |logs| :: logs[a].id < logs[b].id
    requires forall a | 0 <= a < |logs| :: InHistory(logs[a], db.history[..n])
    ensures CountFiled(logs, db.groups[i].id) <= Occurrences(db.history[..n], db.groups[i].key)
    decreases |logs|
  {
    hide Aggregates, GroupRows, InHistory;
    if logs != [] {
      var last, key := |logs| - 1, db.groups[i].key;
      var k := EarlierLogsLieEarlier(logs, db.history, n);
      RemainingLogsAreCounted(rules, db, i, logs[..last], k);
      assert db.history[..k + 1][..k] == db.history[..k];
      OccurrencesGrow(db.history, k + 1, n, key);
      if logs[last].groupId == Some(db.groups[i].id) {
        FiledUnderItsKey(rules, db, i, k);
      }
    }
  }

  // ----- The columns of logs and groups -----

  predicate Grave(level: Level) {
    level in [Warning, Error, Critical]
  }

  /** Every log ever ingested, in any run from an empty database, has a group and a fingerprint
      exactly when its level is warning, error or critical. */
  lemma GroupedExactlyWhenGrave(rules: Rules, steps: seq<Step>, k: nat)
    requires k < |Run(rules, EMPTY, steps).history|
    ensures
      var log := Run(rules, EMPTY, steps).history[k].log;
      && (log.groupId.Some? <==> Grave(log.item.level))
      && (log.fingerprint.Some? <==> Grave(log.item.level))
      && log.normalized == NormalizeCommon(rules, log.item.message)
  {
    RunKeepsGroups(rules, EMPTY, steps);
    var db := Run(rules, EMPTY, steps);
    hide NormalizeCommon, FingerprintOf, Summarises;
    assert Filed(rules, db.groups, db.history[k].log);
  }

  /** The columns that a log of this level, exception type and normalised message gives its group. */
  predicate Describes(log: Log, group: Group) {
    && group.lastSeen == log.item.timestamp && group.exceptionType == log.item.exceptionType
    && (log.item.level == Warning ==> group.severity == MediumSeverity)
    && (log.item.level == Error ==> group.severity == HighSeverity)
    && (log.item.level == Critical ==> group.severity == CriticalSeverity)
    && IsHead(group.title,
              if log.item.exceptionType.None? || log.item.exceptionType.value == "" then log.normalized
              else log.item.exceptionType.value, 512)
  }

  lemma SummaryDescribes(group: Group, history: seq<Entry>)
    requires Summarises(group, history)
    ensures Describes(LastWith(history, group.key).value, group)
    ensures group.firstSeen == FirstWith(history, group.key).value.item.timestamp
  {
    hide Occurrences, FirstWith, LastWith;
  }

  /** A group describes the latest log ever ingested under its key, and dates from the first. */
  lemma GroupDescribesItsLatestLog(rules: Rules, steps: seq<Step>, i: nat) returns (f: nat, l: nat)
    requires i < |Run(rules, EMPTY, steps).groups|
    ensures
      var db := Run(rules, EMPTY, steps);
      var group := db.groups[i];
      && f < |db.history| && Concerns(db.history[f], group.key)
      && l < |db.history| && Concerns(db.history[l], group.key)
      && (forall k | 0 <= k < |db.history| && Concerns(db.history[k], group.key) :: f <= k <= l)
      && group.firstSeen == db.history[f].log.item.timestamp && Describes(db.history[l].log, group)
  {
    hide Filed, GroupRows, LogRows, Run, Describes, Concerns;
    RunKeepsGroups(rules, EMPTY, steps);
    var db := Run(rules, EMPTY, steps);
    assert Summarises(db.groups[i], db.history);
    f, l := FirstAndLastWith(db.history, db.groups[i].key);
    SummaryDescribes(db.groups[i], db.history);
    hide Summarises, Aggregates;
  }

  // ----- Which logs share a group -----

  function InputOf(rules: Rules, item: Item): FingerprintInput {
    FingerprintInput(item.service, NormalizeCommon(rules, item.message), item.exceptionType, item.stackTrace)
  }

  predicate Grouped(db: Db, k: nat) {
    k < |db.history| && Grave(db.history[k].log.item.level)
  }

  /** Of all logs ever ingested, two share a group exactly when service, environment and fingerprint
      agree. */
  lemma LogsShareAGroupExactlyWhen(rules: Rules, db: Db, j: nat, k: nat)
    requires GroupInv(rules, db) && Grouped(db, j) && Grouped(db, k)
    ensures
      var a, b := db.history[j].log, db.history[k].log;
      a.groupId == b.groupId
      <==> a.item.service == b.item.service && a.item.environment == b.item.environment
           && FingerprintOf(rules, a.item) == FingerprintOf(rules, b.item)
  {
    hide NormalizeCommon, FingerprintOf, Summarises, LogRows;
    var a, b := db.history[j].log, db.history[k].log;
    assert Filed(rules, db.groups, a) && Filed(rules, db.groups, b);
    var x :| 0 <= x < |db.groups| && KeyOf(a) == Some(db.groups[x].key) && a.groupId == Some(db.groups[x].id);
    var y :| 0 <= y < |db.groups| && KeyOf(b) == Some(db.groups[y].key) && b.groupId == Some(db.groups[y].id);
    assert db.groups[x].key == db.groups[y].key <==> x == y;
    assert db.groups[x].id == db.groups[y].id <==> x == y;
  }

  /** Two logs of one service and environment agree in message, exception type and normalised trace
      exactly when they share a group and their parts hold equally many separators. */
  lemma GroupsSeparateExactlyWhen(rules: Rules, db: Db, j: nat, k: nat)
    requires GroupInv(rules, db) && Grouped(db, j) && Grouped(db, k)
    requires db.history[j].log.item.service == db.history[k].log.item.service
    requires db.history[j].log.item.environment == db.history[k].log.item.environment
    ensures
      var a, b := db.history[j].log, db.history[k].log;
      SameParts(rules, InputOf(rules, a.item), InputOf(rules, b.item))
      <==> a.groupId == b.groupId && SameBars(rules, InputOf(rules, a.item), InputOf(rules, b.item))
  {
    LogsShareAGroupExactlyWhen(rules, db, j, k);
    hide GroupInv, NormalizeCommon, SameParts, SameBars, GenerateFingerprint;
    var a, b := db.history[j].log.item, db.history[k].log.item;
    FingerprintsSeparateExactlyWhen(rules, InputOf(rules, a), InputOf(rules, b));
  }

  const LOG_WITH_BAR_IN_MESSAGE := Item("s", Production, Error, "m|e", None, None, 0)
  const LOG_WITH_BAR_IN_EXCEPTION := Item("s", Production, Error, "m", Some("e|"), None, 0)

  /** Two logs that differ in message and exception type, ingested into any database one after the
      other, end up in one group, which counts both. */
  lemma SeparatorsMergeGroups(rules: Rules, db: Db, now: int)
    requires GroupInv(rules, db) && PlainOnExample(rules)
    requires NormalizeCommon(rules, "m|e") == "m|e" && NormalizeCommon(rules, "m") == "m"
    ensures
      var first := IngestLog(rules, db, LOG_WITH_BAR_IN_MESSAGE, now, NoFault).0;
      var second := IngestLog(rules, first, LOG_WITH_BAR_IN_EXCEPTION, now, NoFault).0;
      var n := |db.history|;
      && |second.history| == n + 2
      && second.history[n].log.item == LOG_WITH_BAR_IN_MESSAGE
      && second.history[n + 1].log.item == LOG_WITH_BAR_IN_EXCEPTION
      && second.history[n].log.groupId == second.history[n + 1].log.groupId
  {
    var a, b, n := LOG_WITH_BAR_IN_MESSAGE, LOG_WITH_BAR_IN_EXCEPTION, |db.history|;
    var first := IngestLog(rules, db, a, now, NoFault).0;
    var second := IngestLog(rules, first, b, now, NoFault).0;
    hide IngestLog, GroupInv, NormalizeCommon;
    assert FingerprintOf(rules, a) == FingerprintOf(rules, b) by {
      SeparatorsRunTogether(rules);
      hide GenerateFingerprint;
      assert InputOf(rules, a) == BAR_IN_MESSAGE && InputOf(rules, b) == BAR_IN_EXCEPTION;
    }
    IngestKeepsGroups(rules, db, a, now, NoFault);
    IngestKeepsGroups(rules, first, b, now, NoFault);
    IngestStoresTheLog(rules, db, a, now);
    IngestStoresTheLog(rules, first, b, now);
    hide IngestLog, GroupInv, FingerprintOf, NormalizeCommon, PlainOnExample;
    assert second.history[n].log.item == a && second.history[n + 1].log.item == b;
    LogsShareAGroupExactlyWhen(rules, second, n, n + 1);
  }

  /** An ingest stores the submitted log as it is, with the time of its creation. */
  lemma IngestStoresTheLog(rules: Rules, db: Db, item: Item, now: int)
    ensures
      var (db', result) := IngestLog(rules, db, item, now, NoFault);
      && result.Ok? && result.value.item == item && result.value.createdAt == now && result.value.id == db.nextLogId
      && db'.logs == db.logs + [result.value] && db'.history == db.history + [Entry(result.value, Single)]
  {
    hide NormalizeCommon, FingerprintOf, GroupTitle;
  }

  // ----- first_seen and last_seen -----

  predicate Concerns(entry: Entry, key: GroupKey) {
    KeyOf(entry.log) == Some(key)
  }

  /** Every timestamp ever ingested under the key lies between the two. */
  predicate Within(history: seq<Entry>, key: GroupKey, first: int, last: int) {
    forall k | 0 <= k < |history| && Concerns(history[k], key) :: first <= history[k].log.item.timestamp <= last
  }

  /** `first` and `last` are the least and the greatest timestamp ever ingested under the key. */
  ghost predicate Spans(history: seq<Entry>, key: GroupKey, first: int, last: int) {
    && Within(history, key, first, last)
    && (exists k :: 0 <= k < |history| && Concerns(history[k], key) && history[k].log.item.timestamp == first)
    && (exists k :: 0 <= k < |history| && Concerns(history[k], key) && history[k].log.item.timestamp == last)
  }

  predicate InOrder(history: seq<Entry>, key: GroupKey) {
    forall j, k | 0 <= j < k < |history| && Concerns(history[j], key) && Concerns(history[k], key) ::
      history[j].log.item.timestamp <= history[k].log.item.timestamp
  }

  lemma {:induction false} FirstAndLastWith(history: seq<Entry>, key: GroupKey) returns (f: nat, l: nat)
    requires FirstWith(history, key).Some?
    ensures f < |history| && Concerns(history[f], key) && FirstWith(history, key) == Some(history[f].log)
    ensures l < |history| && Concerns(history[l], key) && LastWith(history, key) == Some(history[l].log)
    ensures forall k | 0 <= k < |history| && Concerns(history[k], key) :: f <= k <= l
  {
    var last := |history| - 1;
    var front := history[..last];
    if FirstWith(front, key).Some? {
      f, l := FirstAndLastWith(front, key);
      if Concerns(history[last], key) {
        l := last;
      }
      forall k | 0 <= k < |history| && Concerns(history[k], key) ensures f <= k <= l {
        if k < last {
          assert Concerns(front[k], key);
        }
      }
    } else {
      f, l := last, last;
      forall k | 0 <= k < |history| && Concerns(history[k], key) ensures k == last {
        if k < last {
          PresentKey(front, key, k);
        }
      }
    }
  }

  lemma {:induction false} PresentKey(history: seq<Entry>, key: GroupKey, k: nat)
    requires k < |history| && Concerns(history[k], key)
    ensures FirstWith(history, key).Some?
  {
    var last := |history| - 1;
    if k < last {
      PresentKey(history[..last], key, k);
    }
  }

  /** Logs of a group arriving with nondecreasing timestamps give it the exact span of them all. */
  lemma InOrderArrivalSpans(rules: Rules, db: Db, i: nat)
    requires GroupInv(rules, db) && i < |db.groups| && InOrder(db.history, db.groups[i].key)
    ensures Spans(db.history, db.groups[i].key, db.groups[i].firstSeen, db.groups[i].lastSeen)
  {
    hide Filed, GroupRows, LogRows, GroupTitle;
    assert Summarises(db.groups[i], db.history);
    var f, l := FirstAndLastWith(db.history, db.groups[i].key);
  }

  /** After one more log a group's span is exact exactly when the log is no older than `first_seen`
      and all logs before it lie between `first_seen` and it. So an inexact span heals just with a
      log at least as late as every other, if `first_seen` is right. */
  lemma SpanIsExactAfterIngestExactlyWhen(rules: Rules, db: Db, i: nat, item: Item, now: int)
    requires GroupInv(rules, db) && i < |db.groups| && ShouldGroup(item.level)
    requires db.groups[i].key == GroupKey(item.service, item.environment, FingerprintOf(rules, item))
    ensures
      var db', group := IngestLog(rules, db, item, now, NoFault).0, db.groups[i];
      |db'.groups| == |db.groups|
      && db'.groups[i].key == group.key
      && (Spans(db'.history, group.key, db'.groups[i].firstSeen, db'.groups[i].lastSeen)
          <==> group.firstSeen <= item.timestamp
               && Within(db.history, group.key, group.firstSeen, item.timestamp))
  {
    var log := LogAfter(rules, db, item, now);
    GroupGainsLog(rules, db, i, item, now);
    assert Summarises(db.groups[i], db.history);
    hide IngestLog, GroupInv, FingerprintOf, NormalizeCommon, GroupTitle;
    var f, l := FirstAndLastWith(db.history, db.groups[i].key);
    hide Summarises;
    SpanAfter(db.history, Entry(log, Single), db.groups[i].key, f);
  }

  /** One more log of a group whose span is exact keeps it exact exactly when it is no older than
      the group's `last_seen`: an older one moves `last_seen` back. */
  lemma IngestKeepsSpanExactlyWhen(rules: Rules, db: Db, i: nat, item: Item, now: int)
    requires GroupInv(rules, db) && i < |db.groups| && ShouldGroup(item.level)
    requires db.groups[i].key == GroupKey(item.service, item.environment, FingerprintOf(rules, item))
    requires Spans(db.history, db.groups[i].key, db.groups[i].firstSeen, db.groups[i].lastSeen)
    ensures
      var db' := IngestLog(rules, db, item, now, NoFault).0;
      |db'.groups| == |db.groups|
      && db'.groups[i].key == db.groups[i].key
      && (Spans(db'.history, db.groups[i].key, db'.groups[i].firstSeen, db'.groups[i].lastSeen)
          <==> item.timestamp >= db.groups[i].lastSeen)
  {
    SpanIsExactAfterIngestExactlyWhen(rules, db, i, item, now);
    hide IngestLog, GroupInv, FingerprintOf;
  }

  /** Ingesting a log of an existing group: the history gains it, and of the group only the
      columns taken from the latest log change. */
  lemma GroupGainsLog(rules: Rules, db: Db, i: nat, item: Item, now: int)
    requires GroupInv(rules, db) && i < |db.groups| && ShouldGroup(item.level)
    requires db.groups[i].key == GroupKey(item.service, item.environment, FingerprintOf(rules, item))
    ensures
      var db', entry := IngestLog(rules, db, item, now, NoFault).0, Entry(LogAfter(rules, db, item, now), Single);
      && db'.history == db.history + [entry] && Concerns(entry, db.groups[i].key)
      && entry.log.item == item
      && |db'.groups| == |db.groups|
      && db'.groups[i].key == db.groups[i].key && db'.groups[i].firstSeen == db.groups[i].firstSeen
      && db'.groups[i].lastSeen == item.timestamp && db'.groups[i].count == db.groups[i].count + 1
      && forall j | 0 <= j < |db.groups| && j != i :: db'.groups[j] == db.groups[j]
  {
    PersistEffect(rules, db, item, Single, now, NoFault);
    assert IngestLog(rules, db, item, now, NoFault).0 == PersistLog(rules, db, item, Single, now, NoFault).0 by {
      hide NormalizeCommon, FingerprintOf, UpsertGroup, CreateLog;
    }
    hide PersistLog, IngestLog, FingerprintOf, NormalizeCommon, GroupTitle, LogRows, Aggregates;
    assert FindGroup(db.groups, db.groups[i].key) == Some(i) by {
      assert GroupRows(db.groups, db.nextGroupId);
    }
  }

  lemma SpanAfter(history: seq<Entry>, entry: Entry, key: GroupKey, f: nat)
    requires f < |history| && Concerns(history[f], key) && Concerns(entry, key)
    ensures
      var first, t := history[f].log.item.timestamp, entry.log.item.timestamp;
      Spans(history + [entry], key, first, t) <==> first <= t && Within(history, key, first, t)
  {
    hide Concerns;
    var history', first, t := history + [entry], history[f].log.item.timestamp, entry.log.item.timestamp;
    assert history'[f] == history[f] && history'[|history|] == entry;
    assert Within(history', key, first, t) <==> first <= t && Within(history, key, first, t) by {
      if Within(history', key, first, t) {
        forall k | 0 <= k < |history| && Concerns(history[k], key)
          ensures first <= history[k].log.item.timestamp <= t
        {
          assert history'[k] == history[k];
        }
      }
    }
  }

  /** The from/to part of the group listing's filter. */
  predicate MatchesTimes(group: Group, from: Option<int>, to: Option<int>) {
    (from.Some? ==> group.lastSeen >= from.value) && (to.Some? ==> group.firstSeen <= to.value)
  }

  predicate InRange(t: int, from: Option<int>, to: Option<int>) {
    (from.Some? ==> t >= from.value) && (to.Some? ==> t <= to.value)
  }

  /** Under in-order arrival the filter returns every group that ever had a log in the range. */
  lemma TimeFilterFindsTheGroup(rules: Rules, db: Db, i: nat, k: nat, from: Option<int>, to: Option<int>)
    requires GroupInv(rules, db) && i < |db.groups| && InOrder(db.history, db.groups[i].key)
    requires k < |db.history| && Concerns(db.history[k], db.groups[i].key)
    requires InRange(db.history[k].log.item.timestamp, from, to)
    ensures MatchesTimes(db.groups[i], from, to)
  {
    hide GroupInv;
    InOrderArrivalSpans(rules, db, i);
  }

  /** The filter finds a group for every range that holds one of its logs. */
  ghost predicate FilterIsComplete(group: Group, history: seq<Entry>) {
    forall k, from: Option<int>, to: Option<int> | 0 <= k < |history| && Concerns(history[k], group.key)
        && InRange(history[k].log.item.timestamp, from, to) :: MatchesTimes(group, from, to)
  }

  lemma CompleteMeansWithin(group: Group, history: seq<Entry>, k: nat)
    requires FilterIsComplete(group, history) && k < |history| && Concerns(history[k], group.key)
    ensures group.firstSeen <= history[k].log.item.timestamp <= group.lastSeen
  {
    var t := history[k].log.item.timestamp;
    hide Concerns;
    assert InRange(t, Some(t), Some(t));
    assert MatchesTimes(group, Some(t), Some(t));
  }

  lemma SpanningFindsAll(group: Group, history: seq<Entry>)
    requires Spans(history, group.key, group.firstSeen, group.lastSeen)
    ensures FilterIsComplete(group, history)
  {
    hide Concerns;
  }

  /** The time filter never misses a group exactly when the group's span is exact. */
  lemma TimeFilterIsCompleteExactlyWhen(rules: Rules, db: Db, i: nat)
    requires GroupInv(rules, db) && i < |db.groups|
    ensures FilterIsComplete(db.groups[i], db.history)
            <==> Spans(db.history, db.groups[i].key, db.groups[i].firstSeen, db.groups[i].lastSeen)
  {
    hide Filed, GroupRows, LogRows, GroupTitle, FilterIsComplete;
    var group, history := db.groups[i], db.history;
    assert Summarises(group, history);
    var f, l := FirstAndLastWith(history, group.key);
    assert history[f].log.item.timestamp == group.firstSeen && history[l].log.item.timestamp == group.lastSeen;
    hide Summarises, Aggregates, Concerns, FirstWith, LastWith;
    if FilterIsComplete(group, history) {
      forall k | 0 <= k < |history| && Concerns(history[k], group.key)
        ensures group.firstSeen <= history[k].log.item.timestamp <= group.lastSeen
      {
        CompleteMeansWithin(group, history, k);
      }
    } else if Spans(history, group.key, group.firstSeen, group.lastSeen) {
      SpanningFindsAll(group, history);
    }
  }

  /** A log older than `last_seen` makes the filter miss the group for the range from that former
      `last_seen` on, although a log of the group lies in it. */
  lemma OlderLogHidesTheGroup(rules: Rules, db: Db, i: nat, item: Item, now: int)
    requires GroupInv(rules, db) && i < |db.groups| && ShouldGroup(item.level)
    requires db.groups[i].key == GroupKey(item.service, item.environment, FingerprintOf(rules, item))
    requires item.timestamp < db.groups[i].lastSeen
    ensures
      var db' := IngestLog(rules, db, item, now, NoFault).0;
      var from := Some(db.groups[i].lastSeen);
      |db'.groups| == |db.groups| && !MatchesTimes(db'.groups[i], from, None)
      && exists k :: 0 <= k < |db'.history| && Concerns(db'.history[k], db.groups[i].key)
                     && InRange(db'.history[k].log.item.timestamp, from, None)
  {
    var db' := IngestLog(rules, db, item, now, NoFault).0;
    GroupGainsLog(rules, db, i, item, now);
    assert Summarises(db.groups[i], db.history);
    var f, l := FirstAndLastWith(db.history, db.groups[i].key);
    hide IngestLog, FingerprintOf, NormalizeCommon, GroupInv;
    assert db'.history[l] == db.history[l];
    assert InRange(db'.history[l].log.item.timestamp, Some(db.groups[i].lastSeen), None);
  }
}
