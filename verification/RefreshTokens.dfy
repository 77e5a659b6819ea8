/** The refresh token table and its repository (app/repositories/refresh_token.py). Rows are kept
    in creation order; their positions stand for the autoincrement ids. */
module RefreshTokens {
  import opened Prelude
  import opened Database

  datatype Row = Row(
    userId: nat,
    jtiHash: Digest,
    familyId: string,
    replacedBy: Option<Digest>,
    expiresAt: int,
    revokedAt: Option<int>,
    reuseDetectedAt: Option<int>)

  /** `users` tells of each known user whether it is active. */
  datatype AuthDb = AuthDb(rows: seq<Row>, users: map<nat, bool>)

  predicate Live(row: Row) {
    row.revokedAt.None?
  }

  function FindByHash(rows: seq<Row>, jtiHash: Digest): (r: Option<nat>)
    ensures r.Some? ==> r.value < |rows| && rows[r.value].jtiHash == jtiHash
    ensures r.None? ==> forall k | 0 <= k < |rows| :: rows[k].jtiHash != jtiHash
  {
    FirstWhere(rows, (row: Row) => row.jtiHash == jtiHash)
  }

  function Revoked(row: Row, revokedAt: int, replacedBy: Option<Digest>): Row {
    row.(revokedAt := Some(revokedAt), replacedBy := replacedBy)
  }

  function FamilyRevoked(rows: seq<Row>, familyId: string, revokedAt: int, markReuse: bool): (r: seq<Row>)
    ensures |r| == |rows|
  {
    seq(|rows|, i requires 0 <= i < |rows| =>
      if rows[i].familyId != familyId || !Live(rows[i]) then rows[i]
      else if markReuse then rows[i].(revokedAt := Some(revokedAt), reuseDetectedAt := Some(revokedAt))
      else rows[i].(revokedAt := Some(revokedAt)))
  }

  function UserRevoked(rows: seq<Row>, userId: nat, revokedAt: int): (r: seq<Row>)
    ensures |r| == |rows|
  {
    seq(|rows|, i requires 0 <= i < |rows| =>
      if rows[i].userId != userId || !Live(rows[i]) then rows[i]
      else rows[i].(revokedAt := Some(revokedAt)))
  }

  class RefreshTokenRepository {
    const session: Session<AuthDb>

    constructor (session: Session<AuthDb>)
      ensures this.session == session
    {
      this.session := session;
    }

    /** Adds a row; false when the unique index on `jti_hash` refuses it. */
    method CreateToken(userId: nat, jtiHash: Digest, familyId: string, expiresAt: int)
      returns (created: bool)
      modifies session`working
      ensures created == FindByHash(old(session.working).rows, jtiHash).None?
      ensures created ==> session.working == old(session.working).(
                rows := old(session.working).rows
                        + [Row(userId, jtiHash, familyId, None, expiresAt, None, None)])
      ensures !created ==> session.working == old(session.working)
    {
      var db := session.working;
      if FindByHash(db.rows, jtiHash).Some? {
        return false;
      }
      var token := Row(userId, jtiHash, familyId, None, expiresAt, None, None);
      session.working := db.(rows := db.rows + [token]);
      return true;
    }

    method GetByJtiHash(jtiHash: Digest) returns (token: Option<nat>)
      ensures token == FindByHash(session.working.rows, jtiHash)
    {
      return FindByHash(session.working.rows, jtiHash);
    }

    /** `replaced_by_jti_hash` is written even when the argument is left out. */
    method RevokeToken(token: nat, revokedAt: int,
                       replacedBy: Option<Digest> := None, markReuse: bool := false)
      requires token < |session.working.rows|
      modifies session`working
      ensures
        var row := Revoked(old(session.working).rows[token], revokedAt, replacedBy);
        session.working == old(session.working).(
          rows := old(session.working).rows[token :=
            if markReuse then row.(reuseDetectedAt := Some(revokedAt)) else row])
    {
      var db := session.working;
      var row := db.rows[token].(revokedAt := Some(revokedAt), replacedBy := replacedBy);
      if markReuse {
        row := row.(reuseDetectedAt := Some(revokedAt));
      }
      session.working := db.(rows := db.rows[token := row]);
    }

    /** Afterwards no record of the family is live; records of other families, and those revoked
        before, are as they were. */
    method RevokeFamily(familyId: string, revokedAt: int, markReuse: bool)
      modifies session`working
      ensures session.working == old(session.working).(rows := session.working.rows)
      ensures |session.working.rows| == |old(session.working).rows|
      ensures forall k | 0 <= k < |session.working.rows| ::
                var was, row := old(session.working).rows[k], session.working.rows[k];
                && (row.familyId == familyId ==> !Live(row))
                && (was.familyId != familyId || !Live(was) ==> row == was)
                && (was.familyId == familyId && Live(was) ==>
                      row.revokedAt == Some(revokedAt) && row == was.(
                        revokedAt := row.revokedAt,
                        reuseDetectedAt := if markReuse then row.revokedAt else was.reuseDetectedAt))
    {
      session.working := session.working.(
        rows := FamilyRevoked(session.working.rows, familyId, revokedAt, markReuse));
    }

    /** Afterwards the user has no live record; records of other users, and those revoked before, are
        as they were. */
    method RevokeAllForUser(userId: nat, revokedAt: int)
      modifies session`working
      ensures session.working == old(session.working).(rows := session.working.rows)
      ensures |session.working.rows| == |old(session.working).rows|
      ensures forall k | 0 <= k < |session.working.rows| ::
                var was, row := old(session.working).rows[k], session.working.rows[k];
                && (row.userId == userId ==> !Live(row))
                && (was.userId != userId || !Live(was) ==> row == was)
                && (was.userId == userId && Live(was) ==> row == was.(revokedAt := Some(revokedAt)))
    {
      session.working := session.working.(rows := UserRevoked(session.working.rows, userId, revokedAt));
    }
  }
}
