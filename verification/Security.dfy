/** The claims of access and refresh tokens (app/core/security.py). Signing is abstract: a token
    the service signed carries its payload, and any other text is never accepted. */
module Security {
  import opened Prelude

  datatype ClaimValue = Text(text: string) | Instant(at: int)

  type Payload = map<string, ClaimValue>

  datatype Token = Signed(payload: Payload) | Foreign(text: string)

  datatype Claims = Claims(sub: string, jti: string, familyId: string)

  datatype RefreshTokenData = RefreshTokenData(
    token: Token, jti: string, familyId: string, expiresAt: int, expiresIn: int)

  function AccessToken(subject: string, expiresAt: int): Token {
    Signed(map["sub" := Text(subject), "type" := Text("access"), "exp" := Instant(expiresAt)])
  }

  function RefreshToken(subject: string, jti: string, familyId: string, expiresAt: int): Token {
    Signed(map["sub" := Text(subject), "type" := Text("refresh"), "jti" := Text(jti),
               "family_id" := Text(familyId), "exp" := Instant(expiresAt)])
  }

  /** `uuids` are the fresh identifiers `uuid4` would give; an absent or empty argument
      is replaced by one, as the source's `or` does. */
  function CreateRefreshToken(subject: string, familyId: Option<string>, jti: Option<string>,
                              now: int, lifetime: int, uuids: (string, string)): RefreshTokenData
  {
    var tokenJti := if jti.Some? && jti.value != "" then jti.value else uuids.0;
    var tokenFamily := if familyId.Some? && familyId.value != "" then familyId.value else uuids.1;
    RefreshTokenData(RefreshToken(subject, tokenJti, tokenFamily, now + lifetime),
                     tokenJti, tokenFamily, now + lifetime, lifetime)
  }

  predicate HasText(p: Payload, claim: string) {
    claim in p && p[claim].Text?
  }

  /** Signature and expiry, as the JWT library checks them. It compares whole seconds, so it may
      still accept a token in the second in which it expires: `tolerated` is its verdict then. */
  predicate Verifies(token: Token, now: int, tolerated: bool) {
    token.Signed? &&
    ("exp" in token.payload && token.payload["exp"].Instant? ==>
       token.payload["exp"].at > now || tolerated)
  }

  function DecodeAccessToken(token: Token, now: int, tolerated: bool): Option<string> {
    if !Verifies(token, now, tolerated) then None
    else if !HasText(token.payload, "type") || token.payload["type"].text != "access" then None
    else if !HasText(token.payload, "sub") then None
    else Some(token.payload["sub"].text)
  }

  function DecodeRefreshToken(token: Token, now: int, tolerated: bool): Option<Claims> {
    if !Verifies(token, now, tolerated) then None
    else if !HasText(token.payload, "type") || token.payload["type"].text != "refresh" then None
    else if !HasText(token.payload, "sub") || !HasText(token.payload, "jti")
            || !HasText(token.payload, "family_id") then None
    else Some(Claims(token.payload["sub"].text, token.payload["jti"].text,
                     token.payload["family_id"].text))
  }

  /** Decoding gives back exactly the claims put in, for as long as the token is not expired,
      and after that only if the library tolerates it. Even under one shared signing key, neither
      kind of token is accepted in place of the other. */
  lemma RefreshTokenRoundTrip(subject: string, familyId: Option<string>, jti: Option<string>,
                              issuedAt: int, lifetime: int, uuids: (string, string),
                              now: int, tolerated: bool)
    ensures
      var data := CreateRefreshToken(subject, familyId, jti, issuedAt, lifetime, uuids);
      DecodeRefreshToken(data.token, now, tolerated) ==
      if now < data.expiresAt || tolerated then Some(Claims(subject, data.jti, data.familyId)) else None
    ensures
      var data := CreateRefreshToken(subject, familyId, jti, issuedAt, lifetime, uuids);
      && data.expiresAt == issuedAt + lifetime && data.expiresIn == lifetime
      && (familyId == None || familyId == Some("") ==> data.familyId == uuids.1)
      && (familyId != None && familyId != Some("") ==> Some(data.familyId) == familyId)
      && (jti == None || jti == Some("") ==> data.jti == uuids.0)
      && (jti != None && jti != Some("") ==> Some(data.jti) == jti)
      && DecodeAccessToken(data.token, now, tolerated).None?
      && DecodeRefreshToken(AccessToken(subject, data.expiresAt), now, tolerated).None?
  {
    var data := CreateRefreshToken(subject, familyId, jti, issuedAt, lifetime, uuids);
    assert data.token.payload["exp"] == Instant(data.expiresAt);
  }

  /** An access token gives its subject back until it expires, and after that only if the library
      tolerates it. */
  lemma AccessTokenRoundTrip(subject: string, expiresAt: int, now: int, tolerated: bool)
    ensures DecodeAccessToken(AccessToken(subject, expiresAt), now, tolerated)
            == if now < expiresAt || tolerated then Some(subject) else None
  {
    assert AccessToken(subject, expiresAt).payload["exp"] == Instant(expiresAt);
  }
}
