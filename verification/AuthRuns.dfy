/** Whole runs of the authentication service: what every sequence of logins, refreshes, logouts,
    account changes and clock advances keeps. */
module AuthRuns {
  import opened Prelude
  import opened Numerals
  import opened Security
  import opened RefreshTokens
  import opened Auth

  /** The committed database, the clock, and every refresh token ever handed to a client. */
  datatype World = World(db: AuthDb, now: int, issued: set<Token>)

  datatype Event =
    | Login(userId: nat, uuids: (string, string))
    | Present(token: Token, tolerated: bool, uuids: (string, string))
    | SignOut(token: Token, tolerated: bool)
    | SignOutAll(userId: nat)
    | ChangeUsers(users: map<nat, bool>)
    | Advance(delta: nat)

  function Answer(settings: Settings, w: World, e: Event): Effect {
    match e
    case Login(userId, uuids) => Issue(settings, w.db, userId, w.now, uuids)
    case Present(token, tolerated, uuids) => Refresh(settings, w.db, token, w.now, tolerated, uuids)
    case SignOut(token, tolerated) =>
      Effect(Logout(w.db, token, w.now, tolerated).0, Err(AuthenticationFailed))
    case SignOutAll(userId) => Effect(LogoutAll(w.db, userId, w.now), Err(AuthenticationFailed))
    case ChangeUsers(users) => Effect(w.db.(users := users), Err(AuthenticationFailed))
    case Advance(_) => Effect(w.db, Err(AuthenticationFailed))
  }

  /** The step grants a token pair. */
  predicate Grants(settings: Settings, w: World, e: Event) {
    Answer(settings, w, e).reply.Ok?
  }

  function Step(settings: Settings, w: World, e: Event): World {
    var effect := Answer(settings, w, e);
    World(effect.db,
          if e.Advance? then w.now + e.delta else w.now,
          if effect.reply.Ok? then w.issued + {effect.reply.value.refreshToken} else w.issued)
  }

  predicate HasFamily(db: AuthDb, familyId: string) {
    exists i :: 0 <= i < |db.rows| && db.rows[i].familyId == familyId
  }

  /** A presented text is a token the service handed out, one it did not sign, or a signed token
      of another kind. */
  predicate CanBePresented(w: World, token: Token) {
    token.Signed? && token !in w.issued ==>
      HasText(token.payload, "type") && token.payload["type"].text != "refresh"
  }

  /** What is assumed of the outside: `uuid4` never gives an empty text, and a new family's
      identifier is not one already in use. */
  predicate Legal(w: World, e: Event) {
    match e
    case Login(_, uuids) => uuids.0 != "" && uuids.1 != "" && !HasFamily(w.db, uuids.1)
    case Present(token, _, uuids) => uuids.0 != "" && uuids.1 != "" && CanBePresented(w, token)
    case SignOut(token, _) => CanBePresented(w, token)
    case _ => true
  }

  function Run(settings: Settings, w: World, events: seq<Event>): World
    decreases |events|
  {
    if events == [] then w else Run(settings, Step(settings, w, events[0]), events[1..])
  }

  predicate LegalRun(settings: Settings, w: World, events: seq<Event>)
    decreases |events|
  {
    events != [] ==>
      Legal(w, events[0]) && LegalRun(settings, Step(settings, w, events[0]), events[1..])
  }

  predicate Initial(w: World) {
    w.db.rows == [] && w.issued == {}
  }

  // ----- What holds of the table in every reachable state -----

  /** `j` is the record created right after `i` in their common family. */
  ghost predicate IsNext(rows: seq<Row>, i: int, j: int) {
    0 <= i < j < |rows| && rows[j].familyId == rows[i].familyId
    && forall k | i < k < j :: rows[k].familyId != rows[i].familyId
  }

  ghost predicate UniqueHashes(rows: seq<Row>) {
    forall i, j | 0 <= i < j < |rows| :: rows[i].jtiHash != rows[j].jtiHash
  }

  ghost predicate OneUserPerFamily(rows: seq<Row>) {
    forall i, j | 0 <= i < j < |rows| && rows[i].familyId == rows[j].familyId ::
      rows[i].userId == rows[j].userId
  }

  /** A record with a later one in its family is revoked, and carries its link until it expires. */
  ghost predicate PassedBy(rows: seq<Row>, now: int) {
    forall i, j | 0 <= i < j < |rows| && rows[i].familyId == rows[j].familyId ::
      !Live(rows[i]) && (rows[i].replacedBy.None? ==> rows[i].expiresAt <= now)
  }

  ghost predicate LinksToNext(rows: seq<Row>, i: int, link: Digest) {
    exists j :: IsNext(rows, i, j) && rows[j].jtiHash == link
  }

  /** A link is the hash of the next record of the same family. */
  ghost predicate Linked(rows: seq<Row>) {
    forall i | 0 <= i < |rows| && rows[i].replacedBy.Some? :: LinksToNext(rows, i, rows[i].replacedBy.value)
  }

  /** The token handed out with a record: its claims are the record's own. */
  function TokenOf(row: Row): Token {
    RefreshToken(Decimal(row.userId), row.jtiHash.text, row.familyId, row.expiresAt)
  }

  ghost predicate Holder(rows: seq<Row>, t: Token) {
    exists i :: 0 <= i < |rows| && t == TokenOf(rows[i])
  }

  ghost predicate ClaimsAgree(rows: seq<Row>, issued: set<Token>) {
    && (forall i | 0 <= i < |rows| :: TokenOf(rows[i]) in issued && rows[i].familyId != "")
    && (forall t | t in issued :: Holder(rows, t))
  }

  ghost predicate TableInv(rows: seq<Row>, now: int) {
    UniqueHashes(rows) && OneUserPerFamily(rows) && PassedBy(rows, now) && Linked(rows)
  }

  ghost predicate Inv(w: World) {
    TableInv(w.db.rows, w.now) && ClaimsAgree(w.db.rows, w.issued)
  }

  // ----- Looking a token up -----

  lemma TokenOfDecodes(row: Row, now: int, tolerated: bool)
    ensures DecodeRefreshToken(TokenOf(row), now, tolerated)
            == if now < row.expiresAt || tolerated
               then Some(Claims(Decimal(row.userId), row.jtiHash.text, row.familyId)) else None
  {
    assert TokenOf(row).payload["exp"] == Instant(row.expiresAt);
  }

  /** An issued token names its own record, user and family, and nothing else can name it. */
  lemma LookupFindsOwnRecord(w: World, i: nat, tolerated: bool)
    requires Inv(w) && i < |w.db.rows|
    ensures
      var row := w.db.rows[i];
      GetRefreshTokenRecord(w.db, TokenOf(row), w.now, tolerated)
      == if w.now < row.expiresAt || tolerated then Some(Named(i, row.userId, row.familyId)) else None
  {
    var row := w.db.rows[i];
    TokenOfDecodes(row, w.now, tolerated);
    DecimalRoundTrip(row.userId);
    var found := FindByHash(w.db.rows, row.jtiHash);
    assert row.jtiHash == Sha256(row.jtiHash.text);
    assert found == Some(i);
  }

  lemma LookupNamesAnIssuedToken(w: World, token: Token, tolerated: bool)
    requires Inv(w) && CanBePresented(w, token)
    ensures
      var named := GetRefreshTokenRecord(w.db, token, w.now, tolerated);
      named.Some? ==>
        token == TokenOf(w.db.rows[named.value.record])
        && named.value.familyId == w.db.rows[named.value.record].familyId
        && token in w.issued
  {
    if token in w.issued {
      var i :| 0 <= i < |w.db.rows| && token == TokenOf(w.db.rows[i]);
      LookupFindsOwnRecord(w, i, tolerated);
    }
  }

  // ----- Every step keeps the invariant -----

  predicate SameIdentity(a: Row, b: Row) {
    a.userId == b.userId && a.jtiHash == b.jtiHash && a.familyId == b.familyId && a.expiresAt == b.expiresAt
  }

  /** `after` differs from `before` only by revocations, which may drop the link of an expired record. */
  ghost predicate OnlyRevokes(before: seq<Row>, after: seq<Row>, now: int) {
    && |after| == |before|
    && forall i | 0 <= i < |before| ::
         && SameIdentity(before[i], after[i])
         && (Live(after[i]) ==> Live(before[i]))
         && (after[i].replacedBy == before[i].replacedBy
             || (after[i].replacedBy.None? && before[i].expiresAt <= now))
  }

  lemma RevokingKeepsTable(before: seq<Row>, after: seq<Row>, now: int)
    requires TableInv(before, now) && OnlyRevokes(before, after, now)
    ensures TableInv(after, now)
  {
    forall i | 0 <= i < |after| && after[i].replacedBy.Some?
      ensures LinksToNext(after, i, after[i].replacedBy.value)
    {
      assert LinksToNext(before, i, before[i].replacedBy.value);
      var j :| IsNext(before, i, j) && before[j].jtiHash == before[i].replacedBy.value;
      assert IsNext(after, i, j);
    }
  }

  /** In a family with a live record, that record is the last and every other one is revoked. */
  lemma LiveIsLast(rows: seq<Row>, now: int, i: int, k: int)
    requires PassedBy(rows, now) && 0 <= i < |rows| && Live(rows[i])
    requires 0 <= k < |rows| && k != i && rows[k].familyId == rows[i].familyId
    ensures k < i && !Live(rows[k])
  {
  }

  lemma AppendKeepsLinks(rows: seq<Row>, row: Row, i: int, link: Digest)
    requires LinksToNext(rows, i, link)
    ensures LinksToNext(rows + [row], i, link)
  {
    var j :| IsNext(rows, i, j) && rows[j].jtiHash == link;
    assert IsNext(rows + [row], i, j);
  }

  /** A first record of a new family. */
  lemma OpeningKeepsTable(rows: seq<Row>, row: Row, now: int)
    requires TableInv(rows, now) && FindByHash(rows, row.jtiHash).None? && row.replacedBy.None?
    requires forall i | 0 <= i < |rows| :: rows[i].familyId != row.familyId
    ensures TableInv(rows + [row], now)
  {
    var after := rows + [row];
    forall i | 0 <= i < |after| && after[i].replacedBy.Some?
      ensures LinksToNext(after, i, after[i].replacedBy.value)
    {
      AppendKeepsLinks(rows, row, i, rows[i].replacedBy.value);
    }
  }

  /** The live record `i` gives way to the record appended for its family. */
  lemma RotatingKeepsTable(rows: seq<Row>, i: int, row: Row, now: int)
    requires TableInv(rows, now) && 0 <= i < |rows| && Live(rows[i])
    requires FindByHash(rows, row.jtiHash).None? && row.replacedBy.None?
    requires row.familyId == rows[i].familyId && row.userId == rows[i].userId
    ensures TableInv(rows[i := Revoked(rows[i], now, Some(row.jtiHash))] + [row], now)
  {
    var rotated := rows[i := Revoked(rows[i], now, Some(row.jtiHash))];
    var after := rotated + [row];
    forall k | 0 <= k < |after| && after[k].replacedBy.Some?
      ensures LinksToNext(after, k, after[k].replacedBy.value)
    {
      if k == i {
        assert IsNext(after, i, |rows|);
      } else {
        assert LinksToNext(rows, k, rows[k].replacedBy.value);
        var j :| IsNext(rows, k, j) && rows[j].jtiHash == rows[k].replacedBy.value;
        assert IsNext(after, k, j);
      }
    }
    assert PassedBy(after, now);
    assert UniqueHashes(after);
    assert OneUserPerFamily(after);
  }

  lemma ReLinkKeepsClaims(before: seq<Row>, after: seq<Row>, issued: set<Token>)
    requires ClaimsAgree(before, issued) && |after| == |before|
    requires forall i | 0 <= i < |before| :: SameIdentity(before[i], after[i])
    ensures ClaimsAgree(after, issued)
  {
    forall i | 0 <= i < |after| ensures TokenOf(after[i]) in issued && after[i].familyId != "" {
      assert TokenOf(after[i]) == TokenOf(before[i]);
    }
    forall t | t in issued ensures Holder(after, t) {
      assert Holder(before, t);
      var i :| 0 <= i < |before| && t == TokenOf(before[i]);
      assert t == TokenOf(after[i]);
    }
  }

  lemma AppendKeepsClaims(rows: seq<Row>, row: Row, issued: set<Token>)
    requires ClaimsAgree(rows, issued) && row.familyId != ""
    ensures ClaimsAgree(rows + [row], issued + {TokenOf(row)})
  {
    var after := rows + [row];
    forall t | t in issued + {TokenOf(row)} ensures Holder(after, t) {
      if t in issued {
        assert Holder(rows, t);
        var i :| 0 <= i < |rows| && t == TokenOf(rows[i]);
        assert t == TokenOf(after[i]);
      } else {
        assert t == TokenOf(after[|rows|]);
      }
    }
    forall i | 0 <= i < |after| ensures TokenOf(after[i]) in issued + {TokenOf(row)} && after[i].familyId != "" {
      assert i < |rows| ==> after[i] == rows[i];
    }
  }

  lemma RevokingKeepsInv(w: World, after: seq<Row>)
    requires Inv(w) && OnlyRevokes(w.db.rows, after, w.now)
    ensures Inv(w.(db := w.db.(rows := after)))
  {
    RevokingKeepsTable(w.db.rows, after, w.now);
    ReLinkKeepsClaims(w.db.rows, after, w.issued);
  }

  /** The record that a granted request creates. */
  function NewRow(userId: nat, jti: string, familyId: string, expiresAt: int): Row {
    Row(userId, Sha256(jti), familyId, None, expiresAt, None, None)
  }

  lemma LoginEffect(settings: Settings, w: World, userId: nat, uuids: (string, string))
    requires Legal(w, Login(userId, uuids))
    ensures
      var row := NewRow(userId, uuids.0, uuids.1, w.now + settings.refreshLifetime);
      var w' := Step(settings, w, Login(userId, uuids));
      if FindByHash(w.db.rows, row.jtiHash).None? then
        w' == w.(db := w.db.(rows := w.db.rows + [row]), issued := w.issued + {TokenOf(row)})
      else w' == w
  {
  }

  lemma LoginKeepsInv(settings: Settings, w: World, userId: nat, uuids: (string, string))
    requires Inv(w) && Legal(w, Login(userId, uuids))
    ensures Inv(Step(settings, w, Login(userId, uuids)))
  {
    var row := NewRow(userId, uuids.0, uuids.1, w.now + settings.refreshLifetime);
    LoginEffect(settings, w, userId, uuids);
    if FindByHash(w.db.rows, row.jtiHash).None? {
      OpeningKeepsTable(w.db.rows, row, w.now);
      AppendKeepsClaims(w.db.rows, row, w.issued);
    }
  }

  lemma RedeemGrantsExactlyWhen(settings: Settings, db: AuthDb, i: nat, now: int, uuids: (string, string))
    requires i < |db.rows| && db.rows[i].familyId != "" && uuids.0 != ""
    ensures
      var row := db.rows[i];
      var next := NewRow(row.userId, uuids.0, row.familyId, now + settings.refreshLifetime);
      var effect := Redeem(settings, db, Named(i, row.userId, row.familyId), now, uuids);
      && (effect.reply.Ok?
          <==> now < row.expiresAt && Live(row) && row.userId in db.users && db.users[row.userId]
               && FindByHash(db.rows, next.jtiHash).None?)
      && (effect.reply.Ok? ==>
            effect.db == db.(rows := db.rows[i := Revoked(row, now, Some(next.jtiHash))] + [next])
            && effect.reply.value.refreshToken == TokenOf(next))
  {
    var rows, row, hash := db.rows, db.rows[i], Sha256(uuids.0);
    var rotated := rows[i := Revoked(row, now, Some(hash))];
    assert FindByHash(rows, hash).None? <==> FindByHash(rotated, hash).None? by {
      assert forall k | 0 <= k < |rows| :: rows[k].jtiHash == rotated[k].jtiHash;
    }
  }

  /** Presenting the token of record `i` is granted exactly when the record is unexpired and live
      and its user is active (and the new identifier is unused); a grant revokes that record,
      links it to one new record of the same user and family, and hands out that record's token. */
  lemma RefreshGrantsExactlyWhen(settings: Settings, w: World, i: nat, tolerated: bool, uuids: (string, string))
    requires Inv(w) && i < |w.db.rows| && uuids.0 != ""
    ensures
      var row := w.db.rows[i];
      var e := Present(TokenOf(row), tolerated, uuids);
      var next := NewRow(row.userId, uuids.0, row.familyId, w.now + settings.refreshLifetime);
      && (Grants(settings, w, e)
          <==> w.now < row.expiresAt && Live(row) && row.userId in w.db.users && w.db.users[row.userId]
               && FindByHash(w.db.rows, next.jtiHash).None?)
      && (Grants(settings, w, e) ==>
            Step(settings, w, e) == w.(
              db := w.db.(rows := w.db.rows[i := Revoked(row, w.now, Some(next.jtiHash))] + [next]),
              issued := w.issued + {TokenOf(next)}))
  {
    hide Redeem, GetRefreshTokenRecord, RefreshToken;
    LookupFindsOwnRecord(w, i, tolerated);
    assert w.db.rows[i].familyId != "";
    RedeemGrantsExactlyWhen(settings, w.db, i, w.now, uuids);
  }

  /** A refused refresh revokes at most some records. */
  lemma RefusalOnlyRevokes(settings: Settings, db: AuthDb, named: Named, now: int, uuids: (string, string))
    requires named.record < |db.rows|
    ensures
      var effect := Redeem(settings, db, named, now, uuids);
      effect.reply.Err? ==>
        effect.db == db.(rows := effect.db.rows) && OnlyRevokes(db.rows, effect.db.rows, now)
  {
  }

  lemma PresentKeepsInv(settings: Settings, w: World, token: Token, tolerated: bool, uuids: (string, string))
    requires Inv(w) && Legal(w, Present(token, tolerated, uuids))
    ensures Inv(Step(settings, w, Present(token, tolerated, uuids)))
  {
    hide Redeem, GetRefreshTokenRecord, RefreshToken;
    var e := Present(token, tolerated, uuids);
    var named := GetRefreshTokenRecord(w.db, token, w.now, tolerated);
    if named.None? {
      return;
    }
    LookupNamesAnIssuedToken(w, token, tolerated);
    if !Grants(settings, w, e) {
      RefusalOnlyRevokes(settings, w.db, named.value, w.now, uuids);
      RevokingKeepsInv(w, Step(settings, w, e).db.rows);
    } else {
      var i, rows := named.value.record, w.db.rows;
      var next := NewRow(rows[i].userId, uuids.0, rows[i].familyId, w.now + settings.refreshLifetime);
      RefreshGrantsExactlyWhen(settings, w, i, tolerated, uuids);
      RotatingKeepsTable(rows, i, next, w.now);
      var rotated := rows[i := Revoked(rows[i], w.now, Some(next.jtiHash))];
      ReLinkKeepsClaims(rows, rotated, w.issued);
      AppendKeepsClaims(rotated, next, w.issued);
    }
  }

  lemma LogoutOnlyRevokes(db: AuthDb, token: Token, now: int, tolerated: bool)
    ensures
      var db' := Logout(db, token, now, tolerated).0;
      db' == db.(rows := db'.rows) && |db'.rows| == |db.rows|
      && forall i | 0 <= i < |db.rows| ::
           db'.rows[i] == db.rows[i] || (Live(db.rows[i]) && db'.rows[i] == Revoked(db.rows[i], now, None))
  {
    hide DecodeRefreshToken;
  }

  lemma WaitingKeepsInv(w: World, delta: nat)
    requires Inv(w)
    ensures Inv(w.(now := w.now + delta))
  {
    hide LinksToNext, Holder;
  }

  lemma StepKeepsInv(settings: Settings, w: World, e: Event)
    requires Inv(w) && Legal(w, e)
    ensures Inv(Step(settings, w, e))
  {
    match e
    case Login(userId, uuids) => LoginKeepsInv(settings, w, userId, uuids);
    case Present(token, tolerated, uuids) => PresentKeepsInv(settings, w, token, tolerated, uuids);
    case SignOut(token, tolerated) =>
      LogoutOnlyRevokes(w.db, token, w.now, tolerated);
      RevokingKeepsInv(w, Logout(w.db, token, w.now, tolerated).0.rows);
    case SignOutAll(userId) => RevokingKeepsInv(w, UserRevoked(w.db.rows, userId, w.now));
    case ChangeUsers(users) =>
    case Advance(delta) => WaitingKeepsInv(w, delta);
  }

  lemma {:induction false} RunKeepsInv(settings: Settings, w: World, events: seq<Event>)
    requires Inv(w) && LegalRun(settings, w, events)
    ensures Inv(Run(settings, w, events))
    decreases |events|
  {
    if events != [] {
      StepKeepsInv(settings, w, events[0]);
      RunKeepsInv(settings, Step(settings, w, events[0]), events[1..]);
    }
  }
}
