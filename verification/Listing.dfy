/** The paged log listing (app/services/logs.py:164-205, app/repositories/log.py:33-87). */
module Listing {
  import opened Prelude
  import opened Ordering
  import opened Tables

  datatype SortBy = ByTimestamp | ByCreatedAt | ByLevel

  /** Whether a text, or the hexadecimal form of a digest, is `ILIKE` the searched text. */
  datatype TextMatch = TextMatch(text: string -> bool, digest: Digest -> bool)

  datatype Query = Query(
    service: Option<string>, environment: Option<Environment>, level: Option<Level>,
    fingerprint: Option<Digest>, groupId: Option<nat>, text: Option<TextMatch>,
    from: Option<int>, to: Option<int>)

  datatype JoinedRow = JoinedRow(log: Log, group: Option<Group>)

  datatype Listed = Listed(items: seq<Log>, totalItems: nat, totalPages: nat)

  /** The groups a log's `error_group_id` matches. */
  function Partners(log: Log, groups: seq<Group>): seq<Group> {
    if groups == [] then []
    else (if log.groupId == Some(groups[0].id) then [groups[0]] else []) + Partners(log, groups[1..])
  }

  function RowsFor(log: Log, partners: seq<Group>): seq<JoinedRow> {
    if partners == [] then [JoinedRow(log, None)]
    else seq(|partners|, i requires 0 <= i < |partners| => JoinedRow(log, Some(partners[i])))
  }

  /** `logs LEFT OUTER JOIN error_groups ON error_group_id = id`. */
  function OuterJoin(logs: seq<Log>, groups: seq<Group>): seq<JoinedRow> {
    if logs == [] then [] else RowsFor(logs[0], Partners(logs[0], groups)) + OuterJoin(logs[1..], groups)
  }

  predicate TextMatches(row: JoinedRow, m: TextMatch) {
    var log := row.log;
    m.text(log.item.message) || m.text(log.normalized)
    || (log.item.stackTrace.Some? && m.text(log.item.stackTrace.value))
    || (log.fingerprint.Some? && m.digest(log.fingerprint.value))
    || (row.group.Some? && m.text(row.group.value.title))
    || (row.group.Some? && m.digest(row.group.value.key.fingerprint))
  }

  predicate Matches(row: JoinedRow, q: Query) {
    var log := row.log;
    && (q.service.Some? ==> log.item.service == q.service.value)
    && (q.environment.Some? ==> log.item.environment == q.environment.value)
    && (q.level.Some? ==> log.item.level == q.level.value)
    && (q.fingerprint.Some? ==> log.fingerprint == q.fingerprint)
    && (q.groupId.Some? ==> log.groupId == q.groupId)
    && (q.from.Some? ==> log.item.timestamp >= q.from.value)
    && (q.to.Some? ==> log.item.timestamp <= q.to.value)
    && (q.text.Some? ==> TextMatches(row, q.text.value))
  }

  /** The logs of the joined rows that match, one for each such row. */
  function Selected(rows: seq<JoinedRow>, q: Query): seq<Log> {
    if rows == [] then []
    else (if Matches(rows[0], q) then [rows[0].log] else []) + Selected(rows[1..], q)
  }

  /** Levels are ordered as the enumeration declares them. */
  function LevelRank(level: Level): int {
    match level case Debug => 0 case Info => 1 case Warning => 2 case Error => 3 case Critical => 4
  }

  function Column(log: Log, sortBy: SortBy): int {
    match sortBy
    case ByTimestamp => log.item.timestamp
    case ByCreatedAt => log.createdAt
    case ByLevel => LevelRank(log.item.level)
  }

  function SortKeyOf(sortBy: SortBy, ascending: bool): Log -> SortKey {
    if ascending then (log: Log) => (Column(log, sortBy), log.id as int)
    else (log: Log) => (-Column(log, sortBy), -(log.id as int))
  }

  /** The whole listing, before a page is cut out of it. */
  function Rows(db: Db, q: Query, sortBy: SortBy, ascending: bool): seq<Log> {
    OrderBy(Selected(OuterJoin(db.logs, db.groups), q), SortKeyOf(sortBy, ascending))
  }

  /** `LIMIT size OFFSET offset`. */
  function Slice<T>(s: seq<T>, offset: nat, size: nat): seq<T> {
    if offset >= |s| then []
    else if offset + size >= |s| then s[offset..]
    else s[offset..offset + size]
  }

  function Ceil(total: nat, size: nat): nat
    requires size > 0
  {
    var rounded: nat := total + size - 1;
    rounded / size
  }

  function ListLogs(db: Db, q: Query, sortBy: SortBy, ascending: bool, page: nat, size: nat): Listed
    requires page >= 1 && size >= 1
  {
    var rows := Rows(db, q, sortBy, ascending);
    var offset := (page - 1) * size;
    Listed(Slice(rows, offset, size), |rows|, if |rows| > 0 then Ceil(|rows|, size) else 0)
  }

  // ----- The join adds no rows -----

  ghost predicate UniqueGroupIds(groups: seq<Group>) {
    forall i, j | 0 <= i < j < |groups| :: groups[i].id != groups[j].id
  }

  lemma {:induction false} NoPartner(log: Log, groups: seq<Group>)
    requires forall k | 0 <= k < |groups| :: log.groupId != Some(groups[k].id)
    ensures Partners(log, groups) == []
  {
    if groups != [] {
      NoPartner(log, groups[1..]);
    }
  }

  lemma {:induction false} AtMostOnePartner(log: Log, groups: seq<Group>)
    requires UniqueGroupIds(groups)
    ensures |Partners(log, groups)| <= 1
    ensures forall g :: g in Partners(log, groups) <==> g in groups && log.groupId == Some(g.id)
  {
    if groups != [] {
      AtMostOnePartner(log, groups[1..]);
      if log.groupId == Some(groups[0].id) {
        NoPartner(log, groups[1..]);
      }
    }
  }

  /** The row carries the group its log points to, and none exactly when there is no such group. */
  ghost predicate JoinedRight(row: JoinedRow, groups: seq<Group>) {
    && (forall g | g in groups :: row.group == Some(g) <==> row.log.groupId == Some(g.id))
    && (row.group.Some? ==> row.group.value in groups)
  }

  /** On group ids being a primary key: one joined row for each log, in order, carrying its group. */
  lemma {:induction false} JoinAddsNoRows(logs: seq<Log>, groups: seq<Group>)
    requires UniqueGroupIds(groups)
    ensures
      var rows := OuterJoin(logs, groups);
      |rows| == |logs| && forall i | 0 <= i < |logs| ::
        rows[i].log == logs[i] && JoinedRight(rows[i], groups)
  {
    if logs != [] {
      AtMostOnePartner(logs[0], groups);
      JoinAddsNoRows(logs[1..], groups);
    }
  }

  lemma {:induction false} SelectedKeepsIds(rows: seq<JoinedRow>, q: Query)
    requires forall i, j | 0 <= i < j < |rows| :: rows[i].log.id != rows[j].log.id
    ensures UniqueLogIds(Selected(rows, q))
    ensures forall log | log in Selected(rows, q) ::
              exists i :: 0 <= i < |rows| && rows[i].log == log && Matches(rows[i], q)
    ensures forall i | 0 <= i < |rows| && Matches(rows[i], q) :: rows[i].log in Selected(rows, q)
  {
    if rows != [] {
      var rest, chosen := rows[1..], Selected(rows[1..], q);
      assert forall k | 0 <= k < |rest| :: rest[k] == rows[k + 1];
      SelectedKeepsIds(rest, q);
      forall k | 0 <= k < |chosen| ensures chosen[k].id != rows[0].log.id {
        assert chosen[k] in chosen;
        var i :| 0 <= i < |rest| && rest[i].log == chosen[k];
        assert rows[i + 1].log.id != rows[0].log.id;
      }
      forall log | log in Selected(rows, q)
        ensures exists i :: 0 <= i < |rows| && rows[i].log == log && Matches(rows[i], q)
      {
        if log in chosen {
          var i :| 0 <= i < |rest| && rest[i].log == log && Matches(rest[i], q);
          assert rows[i + 1].log == log && Matches(rows[i + 1], q);
        } else {
          assert rows[0].log == log && Matches(rows[0], q);
        }
      }
    }
  }

  /** The listing holds each stored log that matches the filters, with its own group, exactly once,
      ordered by the column and the id; no other arrangement of these logs is so ordered. */
  lemma ListingIsTheFilteredTable(db: Db, q: Query, sortBy: SortBy, ascending: bool, other: seq<Log>)
    requires UniqueLogIds(db.logs) && UniqueGroupIds(db.groups)
    ensures
      var rows, joined := Rows(db, q, sortBy, ascending), OuterJoin(db.logs, db.groups);
      && |joined| == |db.logs| && (forall i | 0 <= i < |db.logs| :: joined[i].log == db.logs[i])
      && (forall i | 0 <= i < |joined| && Matches(joined[i], q) :: multiset(rows)[joined[i].log] == 1)
      && (forall log | log in rows :: exists i :: 0 <= i < |joined| && joined[i].log == log && Matches(joined[i], q))
      && Ordered(rows, SortKeyOf(sortBy, ascending))
      && (Ordered(other, SortKeyOf(sortBy, ascending)) && multiset(other) == multiset(rows) ==> other == rows)
  {
    var joined, key := OuterJoin(db.logs, db.groups), SortKeyOf(sortBy, ascending);
    var chosen, rows := Selected(joined, q), Rows(db, q, sortBy, ascending);
    JoinAddsNoRows(db.logs, db.groups);
    SelectedKeepsIds(joined, q);
    assert DistinctKeys(chosen, key);
    OrderByOrders(chosen, key);
    OrderByPermutes(chosen, key);
    forall i | 0 <= i < |joined| && Matches(joined[i], q) ensures multiset(rows)[joined[i].log] == 1 {
      OnceOnly(chosen, joined[i].log);
    }
    forall log | log in rows
      ensures exists i :: 0 <= i < |joined| && joined[i].log == log && Matches(joined[i], q)
    {
      assert log in multiset(rows);
      assert log in chosen;
    }
    if Ordered(other, key) && multiset(other) == multiset(rows) {
      OrderedIsUnique(other, rows, key);
    }
  }

  /** A log meets the filters, column by column; the text is looked for in the log and in its group. */
  ghost predicate Meets(log: Log, groups: seq<Group>, q: Query) {
    && (q.service == None || q.service == Some(log.item.service))
    && (q.environment == None || q.environment == Some(log.item.environment))
    && (q.level == None || q.level == Some(log.item.level))
    && (q.fingerprint == None || q.fingerprint == log.fingerprint)
    && (q.groupId == None || q.groupId == log.groupId)
    && (q.from == None || q.from.value <= log.item.timestamp)
    && (q.to == None || log.item.timestamp <= q.to.value)
    && (q.text == None || Contains(log, groups, q.text.value))
  }

  ghost predicate Contains(log: Log, groups: seq<Group>, m: TextMatch) {
    || m.text(log.item.message) || m.text(log.normalized)
    || (exists trace :: log.item.stackTrace == Some(trace) && m.text(trace))
    || (exists digest :: log.fingerprint == Some(digest) && m.digest(digest))
    || (exists g :: g in groups && log.groupId == Some(g.id) && (m.text(g.title) || m.digest(g.key.fingerprint)))
  }

  lemma MatchesExactlyWhenMeets(row: JoinedRow, groups: seq<Group>, q: Query)
    requires JoinedRight(row, groups)
    ensures Matches(row, q) <==> Meets(row.log, groups, q)
  {
    if q.text.Some? {
      assert TextMatches(row, q.text.value) <==> Contains(row.log, groups, q.text.value);
    }
  }

  /** The pages of a listing hold exactly the stored logs that meet its filters. */
  lemma ListedExactlyWhenMeets(db: Db, q: Query, sortBy: SortBy, ascending: bool, size: nat, log: Log)
    requires UniqueLogIds(db.logs) && UniqueGroupIds(db.groups) && size >= 1
    ensures
      var pages := ListLogs(db, q, sortBy, ascending, 1, size).totalPages;
      log in Concatenated(db, q, sortBy, ascending, pages, size) <==> log in db.logs && Meets(log, db.groups, q)
  {
    var rows, joined := Rows(db, q, sortBy, ascending), OuterJoin(db.logs, db.groups);
    PagesPartitionTheListing(db, q, sortBy, ascending, 1, size);
    JoinAddsNoRows(db.logs, db.groups);
    ListingIsTheFilteredTable(db, q, sortBy, ascending, rows);
    hide OuterJoin, Rows, Meets, Matches, Ordered, Concatenated, ListLogs;
    if log in rows {
      var i :| 0 <= i < |joined| && joined[i].log == log && Matches(joined[i], q);
      MatchesExactlyWhenMeets(joined[i], db.groups, q);
    }
    if log in db.logs && Meets(log, db.groups, q) {
      var i :| 0 <= i < |db.logs| && db.logs[i] == log;
      MatchesExactlyWhenMeets(joined[i], db.groups, q);
      assert log in multiset(rows);
    }
  }

  /** The order of levels in the database. */
  predicate Below(a: Level, b: Level) {
    match a
    case Debug => b in [Info, Warning, Error, Critical]
    case Info => b in [Warning, Error, Critical]
    case Warning => b in [Error, Critical]
    case Error => b == Critical
    case Critical => false
  }

  predicate InColumnOrder(a: Log, b: Log, sortBy: SortBy) {
    match sortBy
    case ByTimestamp =>
      a.item.timestamp < b.item.timestamp || (a.item.timestamp == b.item.timestamp && a.id < b.id)
    case ByCreatedAt => a.createdAt < b.createdAt || (a.createdAt == b.createdAt && a.id < b.id)
    case ByLevel => Below(a.item.level, b.item.level) || (a.item.level == b.item.level && a.id < b.id)
  }

  lemma KeysFollowColumns(a: Log, b: Log, sortBy: SortBy, ascending: bool)
    requires Before(SortKeyOf(sortBy, ascending)(a), SortKeyOf(sortBy, ascending)(b))
    ensures if ascending then InColumnOrder(a, b, sortBy) else InColumnOrder(b, a, sortBy)
  {
  }

  lemma SliceAt<T>(s: seq<T>, offset: nat, size: nat, i: nat)
    requires i < |Slice(s, offset, size)|
    ensures offset + i < |s| && Slice(s, offset, size)[i] == s[offset + i]
  {
  }

  /** On every page an item comes before another exactly as the requested column and the id say. */
  lemma PagesAreInColumnOrder(db: Db, q: Query, sortBy: SortBy, ascending: bool, page: nat, size: nat, i: nat, j: nat)
    requires UniqueLogIds(db.logs) && UniqueGroupIds(db.groups) && page >= 1 && size >= 1
    requires i < j < |ListLogs(db, q, sortBy, ascending, page, size).items|
    ensures
      var items := ListLogs(db, q, sortBy, ascending, page, size).items;
      if ascending then InColumnOrder(items[i], items[j], sortBy) else InColumnOrder(items[j], items[i], sortBy)
  {
    hide Rows, OuterJoin, Matches, InColumnOrder, Slice, SortKeyOf, Before;
    var rows, offset := Rows(db, q, sortBy, ascending), (page - 1) * size;
    ListingIsTheFilteredTable(db, q, sortBy, ascending, rows);
    SliceAt(rows, offset, size, i);
    SliceAt(rows, offset, size, j);
    KeysFollowColumns(rows[offset + i], rows[offset + j], sortBy, ascending);
  }

  lemma {:induction false} OnceOnly(logs: seq<Log>, log: Log)
    requires UniqueLogIds(logs) && log in logs
    ensures multiset(logs)[log] == 1
  {
    assert logs == [logs[0]] + logs[1..];
    if logs[0] == log {
      assert forall k | 0 <= k < |logs[1..]| :: logs[1..][k].id != log.id;
      assert log !in logs[1..];
    } else {
      OnceOnly(logs[1..], log);
    }
  }

  lemma IdsMakeKeysDistinct(logs: seq<Log>, sortBy: SortBy, ascending: bool)
    requires UniqueLogIds(logs)
    ensures DistinctKeys(logs, SortKeyOf(sortBy, ascending))
  {
  }

  lemma OppositeListings(logs: seq<Log>, sortBy: SortBy)
    requires UniqueLogIds(logs)
    ensures OrderBy(logs, SortKeyOf(sortBy, false)) == Reversed(OrderBy(logs, SortKeyOf(sortBy, true)))
  {
    hide OrderBy, Reversed, Column;
    IdsMakeKeysDistinct(logs, sortBy, true);
    hide DistinctKeys, UniqueLogIds;
    OppositeOrderReverses(logs, SortKeyOf(sortBy, true), SortKeyOf(sortBy, false));
  }

  lemma SelectedIdsAreUnique(db: Db, q: Query)
    requires UniqueLogIds(db.logs) && UniqueGroupIds(db.groups)
    ensures UniqueLogIds(Selected(OuterJoin(db.logs, db.groups), q))
  {
    JoinAddsNoRows(db.logs, db.groups);
    SelectedKeepsIds(OuterJoin(db.logs, db.groups), q);
  }

  /** The descending listing is the exact reverse of the ascending one. */
  lemma DescendingReversesAscending(db: Db, q: Query, sortBy: SortBy)
    requires UniqueLogIds(db.logs) && UniqueGroupIds(db.groups)
    ensures Rows(db, q, sortBy, false) == Reversed(Rows(db, q, sortBy, true))
  {
    hide OrderBy, Reversed, Column, Selected, OuterJoin;
    SelectedIdsAreUnique(db, q);
    OppositeListings(Selected(OuterJoin(db.logs, db.groups), q), sortBy);
  }

  // ----- Pages -----

  /** The items of pages 1 to `pages`, one after the other. */
  function Concatenated(db: Db, q: Query, sortBy: SortBy, ascending: bool, pages: nat, size: nat): seq<Log>
    requires size >= 1
  {
    if pages == 0 then []
    else Concatenated(db, q, sortBy, ascending, pages - 1, size)
         + ListLogs(db, q, sortBy, ascending, pages, size).items
  }

  lemma CeilFacts(total: nat, size: nat)
    requires size > 0 && total > 0
    ensures
      var pages := Ceil(total, size);
      pages >= 1 && (pages - 1) * size < total <= pages * size
  {
    var pages := Ceil(total, size);
    assert total + size - 1 == pages * size + (total + size - 1) % size;
    assert (pages - 1) * size == pages * size - size;
  }

  lemma Monotone(a: nat, b: nat, size: nat)
    requires a <= b
    ensures a * size <= b * size
  {
  }

  lemma SliceExtends<T>(s: seq<T>, offset: nat, size: nat)
    ensures (if offset <= |s| then s[..offset] else s) + Slice(s, offset, size)
            == if offset + size <= |s| then s[..offset + size] else s
  {
  }

  lemma {:induction false} PagesAreAPrefix(db: Db, q: Query, sortBy: SortBy, ascending: bool, pages: nat, size: nat)
    requires size >= 1
    ensures
      var rows := Rows(db, q, sortBy, ascending);
      Concatenated(db, q, sortBy, ascending, pages, size)
      == if pages * size <= |rows| then rows[..pages * size] else rows
  {
    hide Rows, Slice;
    var rows := Rows(db, q, sortBy, ascending);
    if pages == 0 {
      assert 0 * size == 0;
    } else {
      PagesAreAPrefix(db, q, sortBy, ascending, pages - 1, size);
      var offset := (pages - 1) * size;
      assert pages * size == offset + size;
      SliceExtends(rows, offset, size);
    }
  }

  /** Pages 1 to `total_pages` give the whole listing, in order and without gaps or repeats; every
      page before the last is full, the last is not empty, and every later page is. */
  lemma PagesPartitionTheListing(db: Db, q: Query, sortBy: SortBy, ascending: bool, page: nat, size: nat)
    requires page >= 1 && size >= 1
    ensures
      var rows := Rows(db, q, sortBy, ascending);
      var listed := ListLogs(db, q, sortBy, ascending, page, size);
      && listed.totalItems == |rows|
      && Concatenated(db, q, sortBy, ascending, listed.totalPages, size) == rows
      && (page < listed.totalPages ==> |listed.items| == size)
      && (page == listed.totalPages ==> 0 < |listed.items| <= size)
      && (page > listed.totalPages ==> listed.items == [])
  {
    hide Rows, Slice, Ceil;
    var rows := Rows(db, q, sortBy, ascending);
    var pages := ListLogs(db, q, sortBy, ascending, page, size).totalPages;
    PagesAreAPrefix(db, q, sortBy, ascending, pages, size);
    PageLength(rows, page, size);
    if rows == [] {
      assert pages * size == 0;
    } else {
      CeilFacts(|rows|, size);
      assert rows[..|rows|] == rows;
    }
  }

  lemma PageLength<T>(rows: seq<T>, page: nat, size: nat)
    requires page >= 1 && size >= 1
    ensures
      var items, pages := Slice(rows, (page - 1) * size, size), if |rows| > 0 then Ceil(|rows|, size) else 0;
      && (page < pages ==> |items| == size)
      && (page == pages ==> 0 < |items| <= size)
      && (page > pages ==> items == [])
  {
    if rows != [] {
      hide Ceil;
      var pages, offset := Ceil(|rows|, size), (page - 1) * size;
      CeilFacts(|rows|, size);
      assert page * size == offset + size;
      if page < pages {
        Monotone(page, pages - 1, size);
      } else if page > pages {
        Monotone(pages, page - 1, size);
      }
    }
  }
}
