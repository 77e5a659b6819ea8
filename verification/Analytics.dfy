/** The analytics snapshot (app/workers/tasks/analytics_tasks.py): group-by breakdowns, the average
    occurrences per group and the most frequent groups. */
module Analytics {
  import opened Prelude
  import opened Ordering
  import opened Fingerprint
  import opened Tables
  import opened Logs
  import opened Conservation
  import Cleanup

  datatype FrequentGroup = FrequentGroup(groupId: nat, title: string, occurrences: nat)

  datatype Snapshot = Snapshot(
    totalLogs: nat, logsLast24h: nat, byService: seq<(string, nat)>,
    byEnvironment: seq<(Environment, nat)>, bySeverity: seq<(Level, nat)>,
    mostFrequent: seq<FrequentGroup>, average: real)

  function Since(logs: seq<Log>, since: int): seq<Log> {
    Filter(logs, (log: Log) => log.item.timestamp >= since)
  }

  function Project<K>(logs: seq<Log>, column: Log -> K): seq<K> {
    seq(|logs|, i requires 0 <= i < |logs| => column(logs[i]))
  }

  function Bump<K(==)>(rows: seq<(K, nat)>, key: K): seq<(K, nat)> {
    if rows == [] then [(key, 1)]
    else if rows[0].0 == key then [(key, rows[0].1 + 1)] + rows[1..]
    else [rows[0]] + Bump(rows[1..], key)
  }

  /** `SELECT key, count(*) ... GROUP BY key`. */
  function GroupBy<K(==)>(keys: seq<K>): seq<(K, nat)> {
    if keys == [] then [] else Bump(GroupBy(keys[..|keys| - 1]), keys[|keys| - 1])
  }

  function SumOfCounts(groups: seq<Group>): nat {
    if groups == [] then 0 else groups[0].count + SumOfCounts(groups[1..])
  }

  function ByFrequency(): Group -> SortKey {
    (g: Group) => (-(g.count as int), g.id as int)
  }

  function Average(groups: seq<Group>): real {
    if groups == [] then 0.0 else SumOfCounts(groups) as real / |groups| as real
  }

  function Frequent(groups: seq<Group>, limit: nat): seq<Group> {
    var ordered := OrderBy(groups, ByFrequency());
    if |ordered| <= limit then ordered else ordered[..limit]
  }

  function Recalculate(db: Db, now: int): Snapshot {
    var recent, top := Since(db.logs, now - DAY_MS), Frequent(db.groups, 10);
    Snapshot(|db.logs|, |recent|,
             GroupBy(Project(recent, (log: Log) => log.item.service)),
             GroupBy(Project(recent, (log: Log) => log.item.environment)),
             GroupBy(Project(recent, (log: Log) => log.item.level)),
             seq(|top|, i requires 0 <= i < |top| => FrequentGroup(top[i].id, top[i].title, top[i].count)),
             Average(db.groups))
  }

  // ----- Breakdowns -----

  function Total<K>(rows: seq<(K, nat)>): nat {
    if rows == [] then 0 else rows[0].1 + Total(rows[1..])
  }

  ghost predicate DistinctRows<K>(rows: seq<(K, nat)>) {
    forall i, j | 0 <= i < j < |rows| :: rows[i].0 != rows[j].0
  }

  ghost predicate CountsRight<K>(rows: seq<(K, nat)>, keys: seq<K>) {
    forall i | 0 <= i < |rows| :: rows[i].1 == multiset(keys)[rows[i].0] > 0
  }

  ghost predicate HasRow<K>(rows: seq<(K, nat)>, key: K) {
    exists i :: 0 <= i < |rows| && rows[i].0 == key
  }

  /** One row for each key that occurs, with its number of occurrences, and no other row. */
  ghost predicate IsBreakdown<K>(rows: seq<(K, nat)>, keys: seq<K>) {
    DistinctRows(rows) && CountsRight(rows, keys) && forall k | k in keys :: HasRow(rows, k)
  }

  lemma {:induction false} BumpTotal<K>(rows: seq<(K, nat)>, key: K)
    ensures Total(Bump(rows, key)) == Total(rows) + 1
  {
    if rows != [] && rows[0].0 != key {
      BumpTotal(rows[1..], key);
      assert Bump(rows, key)[1..] == Bump(rows[1..], key);
    }
  }

  lemma {:induction false} BumpFacts<K>(rows: seq<(K, nat)>, key: K)
    requires DistinctRows(rows)
    ensures
      var r := Bump(rows, key);
      && |r| == (if HasRow(rows, key) then |rows| else |rows| + 1)
      && (forall i | 0 <= i < |rows| ::
            r[i] == if rows[i].0 == key then (key, rows[i].1 + 1) else rows[i])
      && (|r| > |rows| ==> r[|rows|] == (key, 1))
  {
    if rows != [] && rows[0].0 != key {
      var rest := rows[1..];
      BumpFacts(rest, key);
      assert Bump(rows, key) == [rows[0]] + Bump(rest, key);
      hide Bump;
      assert HasRow(rows, key) == HasRow(rest, key) by {
        if i :| 0 <= i < |rows| && rows[i].0 == key {
          assert rest[i - 1].0 == key;
        }
      }
    }
  }

  /** A breakdown counts each key exactly, and its counts sum to the number of rows counted. */
  lemma {:induction false} GroupByIsABreakdown<K>(keys: seq<K>)
    ensures IsBreakdown(GroupBy(keys), keys) && Total(GroupBy(keys)) == |keys|
  {
    if keys != [] {
      var last, front := keys[|keys| - 1], keys[..|keys| - 1];
      GroupByIsABreakdown(front);
      BumpKeepsBreakdown(GroupBy(front), front, last);
      BumpTotal(GroupBy(front), last);
      assert keys == front + [last];
    }
  }

  lemma BumpKeepsCounts<K>(rows: seq<(K, nat)>, keys: seq<K>, key: K)
    requires DistinctRows(rows) && CountsRight(rows, keys) && (key in keys ==> HasRow(rows, key))
    ensures CountsRight(Bump(rows, key), keys + [key])
  {
    BumpFacts(rows, key);
    hide Bump;
    var all := keys + [key];
    assert multiset(all) == multiset(keys) + multiset{key};
    assert multiset(all)[key] == multiset(keys)[key] + 1;
    forall i | 0 <= i < |Bump(rows, key)|
      ensures Bump(rows, key)[i].1 == multiset(all)[Bump(rows, key)[i].0] > 0
    {
      if i < |rows| && rows[i].0 != key {
        assert multiset(all)[rows[i].0] == multiset(keys)[rows[i].0];
      }
    }
  }

  lemma BumpKeepsRows<K>(rows: seq<(K, nat)>, key: K, k: K)
    requires DistinctRows(rows) && (HasRow(rows, k) || k == key)
    ensures HasRow(Bump(rows, key), k)
  {
    BumpFacts(rows, key);
    hide Bump;
    var r := Bump(rows, key);
    if HasRow(rows, k) {
      var i :| 0 <= i < |rows| && rows[i].0 == k;
      assert r[i].0 == k;
    } else {
      assert r[|rows|].0 == key;
    }
  }

  lemma BumpKeepsBreakdown<K>(rows: seq<(K, nat)>, keys: seq<K>, key: K)
    requires IsBreakdown(rows, keys)
    ensures IsBreakdown(Bump(rows, key), keys + [key])
  {
    BumpKeepsCounts(rows, keys, key);
    assert DistinctRows(Bump(rows, key)) by {
      BumpFacts(rows, key);
      hide Bump, CountsRight;
    }
    hide Bump, CountsRight, HasRow;
    forall k | k in keys + [key] ensures HasRow(Bump(rows, key), k) {
      BumpKeepsRows(rows, key, k);
    }
  }

  lemma {:induction false} SinceComplementsExpired(logs: seq<Log>, since: int)
    ensures |Since(logs, since)| + Cleanup.CountExpired(logs, since) == |logs|
  {
    if logs != [] {
      SinceComplementsExpired(logs[1..], since);
    }
  }

  /** Every breakdown of a snapshot sums to the logs of the last day: all logs but those older. */
  lemma BreakdownsSumToTheDay(db: Db, now: int)
    ensures
      var s, recent := Recalculate(db, now), Since(db.logs, now - DAY_MS);
      && Total(s.byService) == s.logsLast24h == Total(s.byEnvironment) == Total(s.bySeverity)
      && s.logsLast24h <= s.totalLogs == |db.logs|
      && s.logsLast24h == s.totalLogs - Cleanup.CountExpired(db.logs, now - DAY_MS)
      && (forall log :: log in recent <==> log in db.logs && log.item.timestamp >= now - 24 * 60 * 60 * 1000)
      && IsBreakdown(s.byService, Project(recent, (log: Log) => log.item.service))
      && IsBreakdown(s.byEnvironment, Project(recent, (log: Log) => log.item.environment))
      && IsBreakdown(s.bySeverity, Project(recent, (log: Log) => log.item.level))
  {
    var recent := Since(db.logs, now - DAY_MS);
    SinceComplementsExpired(db.logs, now - DAY_MS);
    GroupByIsABreakdown(Project(recent, (log: Log) => log.item.service));
    GroupByIsABreakdown(Project(recent, (log: Log) => log.item.environment));
    GroupByIsABreakdown(Project(recent, (log: Log) => log.item.level));
    hide GroupBy, IsBreakdown;
  }

  // ----- The average and the counters -----

  /** How many of all logs ever ingested belong to a group. */
  function CountGrouped(history: seq<Entry>): nat {
    if history == [] then 0
    else
      var last := |history| - 1;
      CountGrouped(history[..last]) + if history[last].log.item.level in [Warning, Error, Critical] then 1 else 0
  }

  function SumOfOccurrences(groups: seq<Group>, history: seq<Entry>): nat {
    if groups == [] then 0 else Occurrences(history, groups[0].key) + SumOfOccurrences(groups[1..], history)
  }

  function KeysEqual(groups: seq<Group>, key: Option<GroupKey>): nat {
    if groups == [] then 0 else (if Some(groups[0].key) == key then 1 else 0) + KeysEqual(groups[1..], key)
  }

  lemma {:induction false} SumsAgree(groups: seq<Group>, history: seq<Entry>)
    requires forall i | 0 <= i < |groups| :: groups[i].count == Occurrences(history, groups[i].key)
    ensures SumOfCounts(groups) == SumOfOccurrences(groups, history)
  {
    if groups != [] {
      SumsAgree(groups[1..], history);
    }
  }

  lemma {:induction false} SumAfterOneMore(groups: seq<Group>, history: seq<Entry>)
    requires history != []
    ensures
      var last := |history| - 1;
      SumOfOccurrences(groups, history)
      == SumOfOccurrences(groups, history[..last]) + KeysEqual(groups, KeyOf(history[last].log))
  {
    if groups != [] {
      SumAfterOneMore(groups[1..], history);
    }
  }

  lemma {:induction false} SumOverNothing(groups: seq<Group>)
    ensures SumOfOccurrences(groups, []) == 0
  {
    if groups != [] {
      SumOverNothing(groups[1..]);
    }
  }

  lemma {:induction false} KeysEqualCounts(groups: seq<Group>, key: Option<GroupKey>)
    requires forall i, j | 0 <= i < j < |groups| :: groups[i].key != groups[j].key
    ensures KeysEqual(groups, key)
            == if exists i :: 0 <= i < |groups| && Some(groups[i].key) == key then 1 else 0
  {
    if groups != [] {
      var rest := groups[1..];
      KeysEqualCounts(rest, key);
      if Some(groups[0].key) == key {
        assert forall i | 0 <= i < |rest| :: rest[i].key == groups[i + 1].key != groups[0].key;
      } else {
        assert (exists i :: 0 <= i < |groups| && Some(groups[i].key) == key)
               ==> exists i :: 0 <= i < |rest| && Some(rest[i].key) == key by {
          if i :| 0 <= i < |groups| && Some(groups[i].key) == key {
            assert rest[i - 1].key == groups[i].key;
          }
        }
      }
    }
  }

  lemma {:induction false} OccurrencesPartitionTheHistory(rules: Rules, groups: seq<Group>, history: seq<Entry>)
    requires forall i, j | 0 <= i < j < |groups| :: groups[i].key != groups[j].key
    requires forall k | 0 <= k < |history| :: Filed(rules, groups, history[k].log)
    ensures SumOfOccurrences(groups, history) == CountGrouped(history)
    decreases |history|
  {
    if history == [] {
      SumOverNothing(groups);
    } else {
      var last := |history| - 1;
      SumAfterOneMore(groups, history);
      KeysEqualCounts(groups, KeyOf(history[last].log));
      assert Filed(rules, groups, history[last].log);
      OccurrencesPartitionTheHistory(rules, groups, history[..last]);
    }
  }

  lemma AverageTimesCount(groups: seq<Group>)
    ensures Average(groups) * |groups| as real == SumOfCounts(groups) as real
  {
    if groups != [] {
      var sum, n := SumOfCounts(groups) as real, |groups| as real;
      assert sum / n * n == sum;
    }
  }

  /** The average times the number of groups is the sum of the counters, hence the number of all
      grouped logs ever ingested, also those deleted since. */
  lemma AverageCountsEveryGroupedLog(rules: Rules, db: Db, now: int)
    requires GroupInv(rules, db)
    ensures Recalculate(db, now).average * |db.groups| as real == SumOfCounts(db.groups) as real
    ensures db.groups == [] ==> Recalculate(db, now).average == 0.0
    ensures SumOfCounts(db.groups) == CountGrouped(db.history)
  {
    hide GroupBy, OrderBy, SumOfCounts, Filed, SumOfOccurrences, CountGrouped, Average;
    assert forall i | 0 <= i < |db.groups| :: Summarises(db.groups[i], db.history);
    SumsAgree(db.groups, db.history);
    OccurrencesPartitionTheHistory(rules, db.groups, db.history);
    AverageTimesCount(db.groups);
    AverageOfNone();
  }

  lemma AverageOfNone()
    ensures Average([]) == 0.0
  {
  }

  // ----- The most frequent groups -----

  predicate MoreFrequent(a: Group, b: Group) {
    a.count > b.count || (a.count == b.count && a.id < b.id)
  }

  lemma FrequentPicksTheTop(groups: seq<Group>, limit: nat)
    requires DistinctKeys(groups, ByFrequency())
    ensures
      var top := Frequent(groups, limit);
      && |top| == (if |groups| < limit then |groups| else limit)
      && (forall i | 0 <= i < |top| :: top[i] in groups)
      && (forall i, j | 0 <= i < j < |top| :: MoreFrequent(top[i], top[j]))
      && forall g, i | g in groups && g !in top && 0 <= i < |top| :: MoreFrequent(top[i], g)
  {
    hide OrderBy;
    var key := ByFrequency();
    var ordered, top := OrderBy(groups, key), Frequent(groups, limit);
    OrderByOrders(groups, key);
    OrderByPermutes(groups, key);
    assert top == ordered[..|top|];
    forall i | 0 <= i < |top| ensures top[i] in groups {
      assert ordered[i] in multiset(ordered);
    }
    forall i, j | 0 <= i < j < |top| ensures MoreFrequent(top[i], top[j]) {
      assert Before(key(ordered[i]), key(ordered[j]));
    }
    forall g, i | g in groups && g !in top && 0 <= i < |top| ensures MoreFrequent(top[i], g) {
      assert g in multiset(ordered);
      var j :| 0 <= j < |ordered| && ordered[j] == g;
      assert i < j;
      assert Before(key(ordered[i]), key(ordered[j]));
    }
  }

  /** The list holds the first ten groups, or all if fewer, by count descending and then id
      ascending: every group left out comes after every group listed. */
  lemma MostFrequentGroups(rules: Rules, db: Db, now: int)
    requires GroupInv(rules, db)
    ensures
      var top, s := Frequent(db.groups, 10), Recalculate(db, now);
      && |s.mostFrequent| == |top| == (if |db.groups| < 10 then |db.groups| else 10)
      && (forall i | 0 <= i < |top| ::
            top[i] in db.groups && s.mostFrequent[i] == FrequentGroup(top[i].id, top[i].title, top[i].count))
      && (forall i, j | 0 <= i < j < |top| :: MoreFrequent(top[i], top[j]))
      && forall g, i | g in db.groups && g !in top && 0 <= i < |top| :: MoreFrequent(top[i], g)
  {
    hide OrderBy, GroupBy, Average, MoreFrequent, Since, Project;
    assert DistinctKeys(db.groups, ByFrequency());
    FrequentPicksTheTop(db.groups, 10);
    hide Frequent;
  }
}
