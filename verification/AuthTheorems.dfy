/** What rotation guarantees of every run: one usable token per family, each redeemed at most
    once, replay ends the family, and an ended family stays ended. */
module AuthTheorems {
  import opened Prelude
  import opened Numerals
  import opened Security
  import opened RefreshTokens
  import opened Auth
  import opened AuthRuns

  lemma Reachable(settings: Settings, w: World, events: seq<Event>)
    requires Initial(w) && LegalRun(settings, w, events)
    ensures Inv(Run(settings, w, events))
  {
    RunKeepsInv(settings, w, events);
  }

  /** A family has at most one live record, and it is the last one created in the family. */
  lemma OneLiveRecordPerFamily(settings: Settings, w: World, events: seq<Event>)
    requires Initial(w) && LegalRun(settings, w, events)
    ensures
      var rows := Run(settings, w, events).db.rows;
      forall i, k | 0 <= i < |rows| && 0 <= k < |rows| && k != i
                    && rows[k].familyId == rows[i].familyId && Live(rows[i]) :: k < i && !Live(rows[k])
  {
    Reachable(settings, w, events);
    var w' := Run(settings, w, events);
    forall i, k | 0 <= i < |w'.db.rows| && 0 <= k < |w'.db.rows| && k != i
                  && w'.db.rows[k].familyId == w'.db.rows[i].familyId && Live(w'.db.rows[i])
      ensures k < i && !Live(w'.db.rows[k])
    {
      LiveIsLast(w'.db.rows, w'.now, i, k);
    }
  }

  // ----- Access tokens -----

  /** The event's access token, decoded at `at`. */
  function AccessOf(settings: Settings, w: World, e: Event, at: int, tolerated: bool): Option<string>
    requires Grants(settings, w, e)
  {
    DecodeAccessToken(Answer(settings, w, e).reply.value.accessToken, at, tolerated)
  }

  /** A granted refresh hands out an access token for the user of the presented record, valid for the
      access lifetime from the grant on. */
  lemma RefreshedAccessNamesTheUser(settings: Settings, w: World, i: nat, lenient: bool, uuids: (string, string),
                                    at: int, tolerated: bool)
    requires Inv(w) && i < |w.db.rows| && Grants(settings, w, Present(TokenOf(w.db.rows[i]), lenient, uuids))
    ensures AccessOf(settings, w, Present(TokenOf(w.db.rows[i]), lenient, uuids), at, tolerated)
            == if at < w.now + settings.accessLifetime || tolerated then Some(Decimal(w.db.rows[i].userId)) else None
  {
    hide TableInv, ClaimsAgree, DecodeAccessToken, DecodeRefreshToken;
    LookupFindsOwnRecord(w, i, lenient);
    hide GetRefreshTokenRecord;
    RedeemedAccess(settings, w.db, Named(i, w.db.rows[i].userId, w.db.rows[i].familyId), w.now, uuids);
    hide Redeem;
    AccessTokenRoundTrip(Decimal(w.db.rows[i].userId), w.now + settings.accessLifetime, at, tolerated);
  }

  lemma RedeemedAccess(settings: Settings, db: AuthDb, named: Named, now: int, uuids: (string, string))
    requires named.record < |db.rows| && Redeem(settings, db, named, now, uuids).reply.Ok?
    ensures Redeem(settings, db, named, now, uuids).reply.value.accessToken
            == AccessToken(Decimal(named.userId), now + settings.accessLifetime)
  {
  }

  /** A login hands out an access token for the user who logged in. */
  lemma LoginAccessNamesTheUser(settings: Settings, w: World, userId: nat, uuids: (string, string),
                                at: int, tolerated: bool)
    requires Grants(settings, w, Login(userId, uuids))
    ensures AccessOf(settings, w, Login(userId, uuids), at, tolerated)
            == if at < w.now + settings.accessLifetime || tolerated then Some(Decimal(userId)) else None
  {
    AccessTokenRoundTrip(Decimal(userId), w.now + settings.accessLifetime, at, tolerated);
    hide DecodeAccessToken;
  }

  // ----- Successor links -----

  /** The records reached from `i` by looking `replaced_by_jti_hash` up again and again. The links
      lead strictly forward, each to the next record of the same family, so they end. */
  ghost function Follow(rows: seq<Row>, now: int, i: nat): (chain: seq<nat>)
    requires TableInv(rows, now) && i < |rows|
    ensures chain != [] && chain[0] == i
    ensures forall k | 0 <= k < |chain| :: chain[k] < |rows| && rows[chain[k]].familyId == rows[i].familyId
                                           && rows[chain[k]].userId == rows[i].userId
    ensures forall k | 0 <= k < |chain| - 1 :: IsNext(rows, chain[k], chain[k + 1])
    ensures rows[chain[|chain| - 1]].replacedBy.None?
    decreases |rows| - i
  {
    if rows[i].replacedBy.None? then [i]
    else
      var link := rows[i].replacedBy.value;
      assert LinksToNext(rows, i, link);
      var j :| IsNext(rows, i, j) && rows[j].jtiHash == link;
      var next := FindByHash(rows, link).value;
      assert next == j;
      [i] + Follow(rows, now, next)
  }

  lemma FollowSteps(rows: seq<Row>, now: int, i: nat) returns (next: nat)
    requires TableInv(rows, now) && i < |rows| && rows[i].replacedBy.Some?
    ensures IsNext(rows, i, next) && Follow(rows, now, i) == [i] + Follow(rows, now, next)
  {
    var chain := Follow(rows, now, i);
    hide TableInv;
    assert IsNext(rows, chain[0], chain[1]);
    next := chain[1];
    assert chain[1..] == Follow(rows, now, next);
  }

  /** Every record of the family of `i` from `i` on and before `k` still has its link. */
  predicate LinkedUpTo(rows: seq<Row>, i: nat, k: nat)
    requires i <= k <= |rows| && i < |rows|
  {
    forall m | i <= m < k && rows[m].familyId == rows[i].familyId :: rows[m].replacedBy.Some?
  }

  lemma LinkedFromNext(rows: seq<Row>, i: nat, next: nat, k: nat)
    requires IsNext(rows, i, next) && next <= k <= |rows| && rows[i].replacedBy.Some?
    ensures LinkedUpTo(rows, i, k) <==> LinkedUpTo(rows, next, k)
  {
  }

  /** Following links from `i` reaches a later record of the family exactly when every record of the
      family before it, from `i` on, still has its link. */
  lemma {:induction false} FollowReachesExactlyWhen(rows: seq<Row>, now: int, i: nat, k: nat)
    requires TableInv(rows, now) && i <= k < |rows| && rows[k].familyId == rows[i].familyId
    ensures k in Follow(rows, now, i) <==> LinkedUpTo(rows, i, k)
    decreases |rows| - i
  {
    if rows[i].replacedBy.None? {
      assert Follow(rows, now, i) == [i];
    } else if i < k {
      var next := FollowSteps(rows, now, i);
      assert next <= k && rows[next].familyId == rows[i].familyId;
      LinkedFromNext(rows, i, next, k);
      hide TableInv, Follow, LinkedUpTo, IsNext;
      FollowReachesExactlyWhen(rows, now, next, k);
    }
  }

  /** A link is lost only when its record's own token is presented after it expired, so up to the
      first expired record every record is reached. */
  lemma FollowVisitsTheRest(rows: seq<Row>, now: int, i: nat, k: nat)
    requires TableInv(rows, now) && i <= k < |rows| && rows[k].familyId == rows[i].familyId
    requires forall m | i <= m < k && rows[m].familyId == rows[i].familyId :: rows[m].expiresAt > now
    ensures k in Follow(rows, now, i)
  {
    FollowReachesExactlyWhen(rows, now, i, k);
  }

  /** No record succeeds two others. */
  lemma SuccessorsAreNotShared(rows: seq<Row>, now: int, i: nat, k: nat)
    requires TableInv(rows, now) && i < |rows| && k < |rows|
    requires rows[i].replacedBy.Some? && rows[i].replacedBy == rows[k].replacedBy
    ensures i == k
  {
    var link := rows[i].replacedBy.value;
    assert LinksToNext(rows, i, link) && LinksToNext(rows, k, link);
    var j :| IsNext(rows, i, j) && rows[j].jtiHash == link;
    var j' :| IsNext(rows, k, j') && rows[j'].jtiHash == link;
    assert j == j';
  }

  // ----- Ended families -----

  predicate Ended(rows: seq<Row>, familyId: string) {
    (exists i :: 0 <= i < |rows| && rows[i].familyId == familyId)
    && forall i | 0 <= i < |rows| && rows[i].familyId == familyId :: !Live(rows[i])
  }

  /** Replay: an unexpired token whose record is revoked is refused, and its family is ended
      whether or not the family is revoked in this step. Only a record that was live changes, and
      only when the token had been rotated; it is then marked as reused. */
  lemma ReplayEndsTheFamily(settings: Settings, w: World, i: nat, tolerated: bool, uuids: (string, string))
    requires Inv(w) && i < |w.db.rows| && !Live(w.db.rows[i]) && w.now < w.db.rows[i].expiresAt
    ensures
      var row, e := w.db.rows[i], Present(TokenOf(w.db.rows[i]), tolerated, uuids);
      var after := Step(settings, w, e).db.rows;
      && !Grants(settings, w, e)
      && Ended(after, row.familyId)
      && |after| == |w.db.rows|
      && forall k | 0 <= k < |after| && after[k] != w.db.rows[k] ::
           row.replacedBy.Some? && w.db.rows[k].familyId == row.familyId && Live(w.db.rows[k])
           && after[k] == w.db.rows[k].(revokedAt := Some(w.now), reuseDetectedAt := Some(w.now))
  {
    LookupFindsOwnRecord(w, i, tolerated);
    var rows, row := w.db.rows, w.db.rows[i];
    var after := Step(settings, w, Present(TokenOf(row), tolerated, uuids)).db.rows;
    assert after[i].familyId == row.familyId;
    forall k | 0 <= k < |after| && after[k].familyId == row.familyId
      ensures !Live(after[k])
    {
      if Live(rows[k]) {
        LiveIsLast(rows, w.now, k, i);
      }
    }
  }

  /** A refusal that is not a replay: an expired token that still decodes has its own record
      revoked and its successor link cleared, also when the record had been rotated; in every other
      case, such as a live token of an inactive user, nothing changes. */
  lemma OtherRefusalsTouchOneRecord(settings: Settings, w: World, i: nat, tolerated: bool, uuids: (string, string))
    requires Inv(w) && i < |w.db.rows| && (Live(w.db.rows[i]) || w.db.rows[i].expiresAt <= w.now)
    requires !Grants(settings, w, Present(TokenOf(w.db.rows[i]), tolerated, uuids))
    ensures
      var row := w.db.rows[i];
      Step(settings, w, Present(TokenOf(row), tolerated, uuids)).db.rows
      == if row.expiresAt <= w.now && tolerated
         then w.db.rows[i := row.(revokedAt := Some(w.now), replacedBy := None)] else w.db.rows
  {
    LookupFindsOwnRecord(w, i, tolerated);
  }

  /** Across one step a record keeps its identity and stays revoked once revoked; a new record
      belongs to a new family or to one that had a live record. */
  ghost predicate Continues(before: seq<Row>, after: seq<Row>) {
    && |before| <= |after|
    && (forall i | 0 <= i < |before| ::
          SameIdentity(before[i], after[i]) && (Live(after[i]) ==> Live(before[i])))
    && (forall k, f | |before| <= k < |after| && Ended(before, f) :: after[k].familyId != f)
  }

  lemma RotatingContinues(rows: seq<Row>, i: nat, next: Row, now: int)
    requires i < |rows| && Live(rows[i]) && next.familyId == rows[i].familyId
    ensures Continues(rows, rows[i := Revoked(rows[i], now, Some(next.jtiHash))] + [next])
  {
  }

  lemma OpeningContinues(rows: seq<Row>, row: Row)
    requires forall i | 0 <= i < |rows| :: rows[i].familyId != row.familyId
    ensures Continues(rows, rows + [row])
  {
  }

  lemma PresentContinues(settings: Settings, w: World, token: Token, tolerated: bool, uuids: (string, string))
    requires Inv(w) && Legal(w, Present(token, tolerated, uuids))
    ensures Continues(w.db.rows, Step(settings, w, Present(token, tolerated, uuids)).db.rows)
  {
    var named := GetRefreshTokenRecord(w.db, token, w.now, tolerated);
    if named.Some? {
      LookupNamesAnIssuedToken(w, token, tolerated);
      var i, rows := named.value.record, w.db.rows;
      if Grants(settings, w, Present(token, tolerated, uuids)) {
        RefreshGrantsExactlyWhen(settings, w, i, tolerated, uuids);
        RotatingContinues(rows, i, NewRow(rows[i].userId, uuids.0, rows[i].familyId,
                                          w.now + settings.refreshLifetime), w.now);
      } else {
        RefusalOnlyRevokes(settings, w.db, named.value, w.now, uuids);
      }
    }
  }

  lemma RevokingContinues(before: seq<Row>, after: seq<Row>, now: int)
    requires OnlyRevokes(before, after, now)
    ensures Continues(before, after)
  {
  }

  lemma StepContinues(settings: Settings, w: World, e: Event)
    requires Inv(w) && Legal(w, e)
    ensures Continues(w.db.rows, Step(settings, w, e).db.rows)
  {
    hide Redeem, GetRefreshTokenRecord, Continues, OnlyRevokes, TableInv, ClaimsAgree;
    match e
    case Login(userId, uuids) =>
      LoginEffect(settings, w, userId, uuids);
      OpeningContinues(w.db.rows, NewRow(userId, uuids.0, uuids.1, w.now + settings.refreshLifetime));
      NothingContinues(w.db.rows);
    case Present(token, tolerated, uuids) => PresentContinues(settings, w, token, tolerated, uuids);
    case SignOut(token, tolerated) => SignOutContinues(w.db, token, w.now, tolerated);
    case SignOutAll(userId) => SignOutAllContinues(w.db.rows, userId, w.now);
    case ChangeUsers(users) => NothingContinues(w.db.rows);
    case Advance(delta) => NothingContinues(w.db.rows);
  }

  lemma NothingContinues(rows: seq<Row>)
    ensures Continues(rows, rows)
  {
  }

  lemma SignOutContinues(db: AuthDb, token: Token, now: int, tolerated: bool)
    ensures Continues(db.rows, Logout(db, token, now, tolerated).0.rows)
  {
    LogoutOnlyRevokes(db, token, now, tolerated);
    hide Logout;
  }

  lemma SignOutAllContinues(rows: seq<Row>, userId: nat, now: int)
    ensures Continues(rows, UserRevoked(rows, userId, now))
  {
    RevokingContinues(rows, UserRevoked(rows, userId, now), now);
  }

  lemma EndedStaysEnded(before: seq<Row>, after: seq<Row>, familyId: string)
    requires Continues(before, after) && Ended(before, familyId)
    ensures Ended(after, familyId)
  {
    var i :| 0 <= i < |before| && before[i].familyId == familyId;
    assert after[i].familyId == familyId;
  }

  /** An ended family never has a live record again, and gains no record; records persist. */
  lemma {:induction false} EndedForever(settings: Settings, w: World, events: seq<Event>, familyId: string)
    requires Inv(w) && LegalRun(settings, w, events) && Ended(w.db.rows, familyId)
    ensures
      var after := Run(settings, w, events).db.rows;
      && Ended(after, familyId)
      && |w.db.rows| <= |after|
      && (forall i | 0 <= i < |w.db.rows| :: SameIdentity(w.db.rows[i], after[i]))
      && (forall k | |w.db.rows| <= k < |after| :: after[k].familyId != familyId)
    decreases |events|
  {
    if events != [] {
      var next := Step(settings, w, events[0]);
      StepKeepsInv(settings, w, events[0]);
      StepContinues(settings, w, events[0]);
      EndedStaysEnded(w.db.rows, next.db.rows, familyId);
      EndedForever(settings, next, events[1..], familyId);
    }
  }

  /** No token of an ended family is ever granted again, however the run goes on. */
  lemma EndedFamilyNeverRefreshes(settings: Settings, w: World, events: seq<Event>, i: nat,
                                  tolerated: bool, uuids: (string, string))
    requires Inv(w) && LegalRun(settings, w, events) && i < |w.db.rows| && uuids.0 != ""
    requires Ended(w.db.rows, w.db.rows[i].familyId)
    ensures !Grants(settings, Run(settings, w, events), Present(TokenOf(w.db.rows[i]), tolerated, uuids))
  {
    var later := Run(settings, w, events);
    EndedForever(settings, w, events, w.db.rows[i].familyId);
    RunKeepsInv(settings, w, events);
    assert TokenOf(later.db.rows[i]) == TokenOf(w.db.rows[i]);
    RefreshGrantsExactlyWhen(settings, later, i, tolerated, uuids);
  }

  lemma {:induction false} RevokedStaysRevoked(settings: Settings, w: World, events: seq<Event>, i: nat)
    requires Inv(w) && LegalRun(settings, w, events) && i < |w.db.rows| && !Live(w.db.rows[i])
    ensures
      var after := Run(settings, w, events).db.rows;
      i < |after| && SameIdentity(w.db.rows[i], after[i]) && !Live(after[i])
    decreases |events|
  {
    if events != [] {
      StepKeepsInv(settings, w, events[0]);
      StepContinues(settings, w, events[0]);
      RevokedStaysRevoked(settings, Step(settings, w, events[0]), events[1..], i);
    }
  }

  // ----- A live token stays usable -----

  /** The tokens handed out with the records of one family. */
  ghost function FamilyTokens(rows: seq<Row>, familyId: string): set<Token> {
    set k | 0 <= k < |rows| && rows[k].familyId == familyId :: TokenOf(rows[k])
  }

  /** The event presents and signs out none of the tokens, and is no logout-all of the user. */
  predicate Spares(e: Event, tokens: set<Token>, userId: nat) {
    match e
    case Present(token, _, _) => token !in tokens
    case SignOut(token, _) => token !in tokens
    case SignOutAll(id) => id != userId
    case _ => true
  }

  ghost predicate SparesAll(events: seq<Event>, tokens: set<Token>, userId: nat) {
    forall k | 0 <= k < |events| :: Spares(events[k], tokens, userId)
  }

  /** The family has the same records, unchanged. */
  ghost predicate Untouched(before: seq<Row>, after: seq<Row>, familyId: string) {
    && |before| <= |after|
    && (forall k | 0 <= k < |before| ::
          if before[k].familyId == familyId then after[k] == before[k] else after[k].familyId != familyId)
    && forall k | |before| <= k < |after| :: after[k].familyId != familyId
  }

  lemma UntouchedTokens(before: seq<Row>, after: seq<Row>, familyId: string)
    requires Untouched(before, after, familyId)
    ensures FamilyTokens(after, familyId) == FamilyTokens(before, familyId)
  {
    forall t | t in FamilyTokens(before, familyId) ensures t in FamilyTokens(after, familyId) {
      var k :| 0 <= k < |before| && before[k].familyId == familyId && t == TokenOf(before[k]);
      assert after[k] == before[k];
    }
    forall t | t in FamilyTokens(after, familyId) ensures t in FamilyTokens(before, familyId) {
      var k :| 0 <= k < |after| && after[k].familyId == familyId && t == TokenOf(after[k]);
      assert k < |before| && after[k] == before[k];
    }
  }

  lemma UntouchedChain(a: seq<Row>, b: seq<Row>, c: seq<Row>, familyId: string)
    requires Untouched(a, b, familyId) && Untouched(b, c, familyId)
    ensures Untouched(a, c, familyId)
  {
  }

  lemma OtherFamilyPresented(settings: Settings, w: World, k: nat, tolerated: bool, uuids: (string, string),
                             familyId: string)
    requires Inv(w) && k < |w.db.rows| && w.db.rows[k].familyId != familyId && uuids.0 != ""
    ensures Untouched(w.db.rows, Step(settings, w, Present(TokenOf(w.db.rows[k]), tolerated, uuids)).db.rows, familyId)
  {
    hide Redeem, GetRefreshTokenRecord, RefreshToken, TableInv, ClaimsAgree, Ended;
    var row, e := w.db.rows[k], Present(TokenOf(w.db.rows[k]), tolerated, uuids);
    RefreshGrantsExactlyWhen(settings, w, k, tolerated, uuids);
    if !Grants(settings, w, e) {
      if !Live(row) && w.now < row.expiresAt {
        ReplayEndsTheFamily(settings, w, k, tolerated, uuids);
      } else {
        OtherRefusalsTouchOneRecord(settings, w, k, tolerated, uuids);
      }
    }
  }

  lemma OtherFamilySignedOut(w: World, token: Token, tolerated: bool, familyId: string)
    requires Inv(w) && CanBePresented(w, token) && token !in FamilyTokens(w.db.rows, familyId)
    ensures Untouched(w.db.rows, Logout(w.db, token, w.now, tolerated).0.rows, familyId)
  {
    LookupNamesAnIssuedToken(w, token, tolerated);
    hide GetRefreshTokenRecord, TableInv, ClaimsAgree;
  }

  lemma StepSparesFamily(settings: Settings, w: World, e: Event, i: nat)
    requires Inv(w) && Legal(w, e) && i < |w.db.rows|
    requires Spares(e, FamilyTokens(w.db.rows, w.db.rows[i].familyId), w.db.rows[i].userId)
    ensures Untouched(w.db.rows, Step(settings, w, e).db.rows, w.db.rows[i].familyId)
  {
    hide Redeem, GetRefreshTokenRecord, ClaimsAgree;
    var rows, familyId := w.db.rows, w.db.rows[i].familyId;
    match e
    case Login(userId, uuids) => LoginEffect(settings, w, userId, uuids);
    case Present(token, tolerated, uuids) =>
      var named := GetRefreshTokenRecord(w.db, token, w.now, tolerated);
      if named.Some? {
        LookupNamesAnIssuedToken(w, token, tolerated);
        OtherFamilyPresented(settings, w, named.value.record, tolerated, uuids, familyId);
      }
    case SignOut(token, tolerated) => OtherFamilySignedOut(w, token, tolerated, familyId);
    case SignOutAll(userId) =>
      forall k | 0 <= k < |rows| && rows[k].familyId == familyId ensures rows[k].userId != userId {
        assert rows[k].userId == rows[i].userId;
      }
    case ChangeUsers(users) =>
    case Advance(delta) =>
  }

  lemma {:induction false} RunSparesFamily(settings: Settings, w: World, events: seq<Event>, i: nat)
    requires Inv(w) && LegalRun(settings, w, events) && i < |w.db.rows|
    requires SparesAll(events, FamilyTokens(w.db.rows, w.db.rows[i].familyId), w.db.rows[i].userId)
    ensures Untouched(w.db.rows, Run(settings, w, events).db.rows, w.db.rows[i].familyId)
    decreases |events|
  {
    if events != [] {
      var next, familyId := Step(settings, w, events[0]), w.db.rows[i].familyId;
      StepKeepsInv(settings, w, events[0]);
      StepSparesFamily(settings, w, events[0], i);
      UntouchedTokens(w.db.rows, next.db.rows, familyId);
      hide Inv, Step, FamilyTokens;
      assert next.db.rows[i] == w.db.rows[i];
      assert forall k | 0 <= k < |events[1..]| :: events[1..][k] == events[k + 1];
      RunSparesFamily(settings, next, events[1..], i);
      UntouchedChain(w.db.rows, next.db.rows, Run(settings, next, events[1..]).db.rows, familyId);
    }
  }

  /** A live token stays usable through any run that leaves its family's tokens alone and holds no
      logout-all of its user: it is then granted exactly until it expires, while its user is active
      (and the new identifier is unused). Nothing done to other families matters. */
  lemma LiveTokenStaysUsable(settings: Settings, w: World, events: seq<Event>, i: nat, tolerated: bool,
                             nextIds: (string, string))
    requires Inv(w) && LegalRun(settings, w, events) && i < |w.db.rows| && Live(w.db.rows[i]) && nextIds.0 != ""
    requires SparesAll(events, FamilyTokens(w.db.rows, w.db.rows[i].familyId), w.db.rows[i].userId)
    ensures
      var row, later := w.db.rows[i], Run(settings, w, events);
      && i < |later.db.rows| && later.db.rows[i] == row
      && (Grants(settings, later, Present(TokenOf(row), tolerated, nextIds))
          <==> later.now < row.expiresAt && row.userId in later.db.users && later.db.users[row.userId]
               && FindByHash(later.db.rows, Sha256(nextIds.0)).None?)
  {
    RunSparesFamily(settings, w, events, i);
    RunKeepsInv(settings, w, events);
    hide Inv, Grants, TokenOf, LegalRun, FamilyTokens;
    RefreshGrantsExactlyWhen(settings, Run(settings, w, events), i, tolerated, nextIds);
  }

  /** The token of a login is granted, exactly until it expires and while its user is active, after
      any run that neither presents nor signs out this token and holds no logout-all of the user. */
  lemma LoginThenRefreshIsGranted(settings: Settings, w: World, userId: nat, ids: (string, string),
                                  events: seq<Event>, tolerated: bool, nextIds: (string, string))
    requires Inv(w) && Legal(w, Login(userId, ids)) && nextIds.0 != "" && nextIds.1 != ""
    requires FindByHash(w.db.rows, Sha256(ids.0)).None?
    requires LegalRun(settings, Step(settings, w, Login(userId, ids)), events)
    requires SparesAll(events, {TokenOf(NewRow(userId, ids.0, ids.1, w.now + settings.refreshLifetime))}, userId)
    ensures
      var token := TokenOf(NewRow(userId, ids.0, ids.1, w.now + settings.refreshLifetime));
      var later := Run(settings, Step(settings, w, Login(userId, ids)), events);
      var e := Present(token, tolerated, nextIds);
      && Grants(settings, w, Login(userId, ids)) && Legal(later, e)
      && (Grants(settings, later, e)
          <==> later.now < w.now + settings.refreshLifetime && userId in later.db.users && later.db.users[userId]
               && FindByHash(later.db.rows, Sha256(nextIds.0)).None?)
  {
    var row, rows := NewRow(userId, ids.0, ids.1, w.now + settings.refreshLifetime), w.db.rows;
    var began := Step(settings, w, Login(userId, ids));
    LoginEffect(settings, w, userId, ids);
    LoginKeepsInv(settings, w, userId, ids);
    OnlyOwnToken(rows, row);
    hide Inv, Step, TokenOf, FamilyTokens;
    RunKeepsInv(settings, began, events);
    LiveTokenStaysUsable(settings, began, events, |rows|, tolerated, nextIds);
    ClaimedTokenIsIssued(Run(settings, began, events), |rows|);
  }

  lemma OnlyOwnToken(rows: seq<Row>, row: Row)
    requires forall k | 0 <= k < |rows| :: rows[k].familyId != row.familyId
    ensures FamilyTokens(rows + [row], row.familyId) == {TokenOf(row)}
  {
    assert (rows + [row])[|rows|] == row;
    assert TokenOf(row) in FamilyTokens(rows + [row], row.familyId);
    forall t | t in FamilyTokens(rows + [row], row.familyId) ensures t == TokenOf(row) {
      var k :| 0 <= k < |rows + [row]| && (rows + [row])[k].familyId == row.familyId && t == TokenOf((rows + [row])[k]);
      assert k == |rows|;
    }
  }

  lemma ClaimedTokenIsIssued(w: World, i: nat)
    requires Inv(w) && i < |w.db.rows|
    ensures TokenOf(w.db.rows[i]) in w.issued
  {
  }

  // ----- A token is redeemed at most once -----

  /** A refresh token is redeemed at most once: after a grant, presenting it again is refused in
      every later state, and while it is unexpired that second use ends its family. */
  lemma RedeemedAtMostOnce(settings: Settings, w: World, token: Token, first: (bool, (string, string)),
                           events: seq<Event>, second: (bool, (string, string)))
    requires Inv(w) && Legal(w, Present(token, first.0, first.1))
    requires Grants(settings, w, Present(token, first.0, first.1))
    requires LegalRun(settings, Step(settings, w, Present(token, first.0, first.1)), events)
    requires second.1.0 != ""
    ensures
      var later := Run(settings, Step(settings, w, Present(token, first.0, first.1)), events);
      var again := Present(token, second.0, second.1);
      && !Grants(settings, later, again)
      && exists i :: 0 <= i < |later.db.rows| && token == TokenOf(later.db.rows[i])
           && (later.now < later.db.rows[i].expiresAt ==>
                 Ended(Step(settings, later, again).db.rows, later.db.rows[i].familyId))
  {
    var e := Present(token, first.0, first.1);
    LookupNamesAnIssuedToken(w, token, first.0);
    var i := GetRefreshTokenRecord(w.db, token, w.now, first.0).value.record;
    RefreshGrantsExactlyWhen(settings, w, i, first.0, first.1);
    StepKeepsInv(settings, w, e);
    var w' := Step(settings, w, e);
    RevokedStaysRevoked(settings, w', events, i);
    RunKeepsInv(settings, w', events);
    var later := Run(settings, w', events);
    assert token == TokenOf(later.db.rows[i]);
    RefreshGrantsExactlyWhen(settings, later, i, second.0, second.1);
    if later.now < later.db.rows[i].expiresAt {
      ReplayEndsTheFamily(settings, later, i, second.0, second.1);
    }
  }

  /** Logout revokes only the record of its own token, so it ends the family exactly when that
      record was the live one or the family had already ended. */
  lemma LogoutEndsTheFamilyExactlyWhen(settings: Settings, w: World, i: nat, tolerated: bool)
    requires Inv(w) && i < |w.db.rows| && (w.now < w.db.rows[i].expiresAt || tolerated)
    ensures
      var row := w.db.rows[i];
      var after := Step(settings, w, SignOut(TokenOf(row), tolerated)).db.rows;
      && (Ended(after, row.familyId) <==> Live(row) || Ended(w.db.rows, row.familyId))
      && (after == if Live(row) then w.db.rows[i := row.(revokedAt := Some(w.now))] else w.db.rows)
      && Logout(w.db, TokenOf(row), w.now, tolerated).1
  {
    LookupFindsOwnRecord(w, i, tolerated);
    var rows, row := w.db.rows, w.db.rows[i];
    var after := Step(settings, w, SignOut(TokenOf(row), tolerated)).db.rows;
    if Live(row) {
      assert row.replacedBy.None?;
      assert after[i].familyId == row.familyId;
      forall k | 0 <= k < |after| && after[k].familyId == row.familyId ensures !Live(after[k]) {
        if k != i {
          LiveIsLast(rows, w.now, i, k);
        }
      }
    }
  }

  /** Logout answers that the token is known exactly when the service issued it and it still decodes;
      for any other text it changes nothing. */
  lemma LogoutKnowsExactly(w: World, token: Token, tolerated: bool)
    requires Inv(w) && CanBePresented(w, token)
    ensures
      var (db', known) := Logout(w.db, token, w.now, tolerated);
      && (known <==> exists i :: 0 <= i < |w.db.rows| && token == TokenOf(w.db.rows[i])
                                 && (w.now < w.db.rows[i].expiresAt || tolerated))
      && (!known ==> db' == w.db)
  {
    LookupNamesAnIssuedToken(w, token, tolerated);
    if i :| 0 <= i < |w.db.rows| && token == TokenOf(w.db.rows[i]) {
      LookupFindsOwnRecord(w, i, tolerated);
    }
    hide GetRefreshTokenRecord, TableInv, ClaimsAgree;
  }

  lemma RevokingUserEndsExactly(rows: seq<Row>, userId: nat, familyId: string, now: int)
    requires OneUserPerFamily(rows) && exists i :: 0 <= i < |rows| && rows[i].familyId == familyId
    ensures
      Ended(UserRevoked(rows, userId, now), familyId)
      <==> Ended(rows, familyId)
           || exists i :: 0 <= i < |rows| && rows[i].familyId == familyId && rows[i].userId == userId
  {
    var after := UserRevoked(rows, userId, now);
    var i :| 0 <= i < |rows| && rows[i].familyId == familyId;
    assert after[i].familyId == familyId;
    if rows[i].userId == userId {
      forall k | 0 <= k < |after| && after[k].familyId == familyId ensures !Live(after[k]) {
        assert rows[k].userId == rows[i].userId;
      }
    } else {
      forall k | 0 <= k < |rows| && rows[k].familyId == familyId ensures after[k] == rows[k] {
        assert rows[k].userId == rows[i].userId;
      }
      assert Ended(after, familyId) <==> Ended(rows, familyId);
    }
  }

  /** Logout-all leaves the given user no live record, so it ends exactly the user's families (beside
      those ended before), and it changes no record of another user. */
  lemma LogoutAllEndsExactly(settings: Settings, w: World, userId: nat, familyId: string)
    requires Inv(w) && HasFamily(w.db, familyId)
    ensures
      var rows, after := w.db.rows, Step(settings, w, SignOutAll(userId)).db.rows;
      && |after| == |rows|
      && (Ended(after, familyId)
          <==> Ended(rows, familyId)
               || exists i :: 0 <= i < |rows| && rows[i].familyId == familyId && rows[i].userId == userId)
      && (forall k | 0 <= k < |rows| && rows[k].userId == userId :: !Live(after[k]))
      && forall k | 0 <= k < |rows| && after[k] != rows[k] ::
           rows[k].userId == userId && Live(rows[k]) && after[k] == rows[k].(revokedAt := Some(w.now))
  {
    RevokingUserEndsExactly(w.db.rows, userId, familyId, w.now);
    hide Inv, Ended;
  }

  /** After a logout-all no refresh token handed out before for this user is ever granted again,
      however the run goes on. */
  lemma LogoutAllEndsEveryToken(settings: Settings, w: World, userId: nat, token: Token, events: seq<Event>,
                                tolerated: bool, uuids: (string, string))
    requires Inv(w) && token in w.issued && "sub" in token.payload && token.payload["sub"] == Text(Decimal(userId))
    requires LegalRun(settings, Step(settings, w, SignOutAll(userId)), events) && uuids.0 != ""
    ensures !Grants(settings, Run(settings, Step(settings, w, SignOutAll(userId)), events),
                    Present(token, tolerated, uuids))
  {
    assert Holder(w.db.rows, token);
    var i :| 0 <= i < |w.db.rows| && token == TokenOf(w.db.rows[i]);
    assert token.payload["sub"] == Text(Decimal(w.db.rows[i].userId));
    DecimalInjective(w.db.rows[i].userId, userId);
    var after := Step(settings, w, SignOutAll(userId));
    LogoutAllEndsExactly(settings, w, userId, w.db.rows[i].familyId);
    StepKeepsInv(settings, w, SignOutAll(userId));
    RevokedStaysRevoked(settings, after, events, i);
    RunKeepsInv(settings, after, events);
    StepContinues(settings, w, SignOutAll(userId));
    hide Inv, Step, Grants, Run, LegalRun, RefreshToken;
    var later := Run(settings, after, events);
    assert TokenOf(later.db.rows[i]) == token;
    RefreshGrantsExactlyWhen(settings, later, i, tolerated, uuids);
  }
}
