/**
 * `POST /api/2fa/verify` (src/app/api/2fa/verify/route.ts): confirms the
 * first TOTP code of a new secret, switches two-factor sign-in on and issues
 * eight backup codes.
 */
module TwoFactorVerify {
  import opened Common
  import opened Oracles
  import opened Totp
  import opened Accounts

  datatype VerifyBody = VerifyBody(token: Option<string>, encryptedSecret: Option<string>)

  const Required := "Token and secret are required"
  const AlreadyEnabled := "2FA is already enabled"
  const Failed := "Failed to verify 2FA"
  const BackupCodeCount := 8

  /**
   * The secret the token is checked against. A text whose second `:`-field is non-empty is
   * taken as ciphertext and decrypted; any other text is base64-decoded and used as is.
   * The decrypt branch for a decoded text containing `:` always fails: it decrypts the
   * original text, whose second field is empty.
   */
  function SecretToCheck(p: Platform, enc: string): (r: Result<string, CryptoError>)
    ensures SecondField(enc) != "" ==> r == DecryptSecret(p, enc, None)
    ensures SecondField(enc) == "" && ':' in p.base64Utf8(enc) ==> r == Err(InvalidFormat)
    ensures SecondField(enc) == "" && ':' !in p.base64Utf8(enc) ==> r == Ok(p.base64Utf8(enc))
  {
    var decoded := if SecondField(enc) != "" then enc else p.base64Utf8(enc);
    if ':' in decoded then DecryptSecret(p, enc, None) else Ok(decoded)
  }

  /** A signed-in caller sent JSON with both fields truthy. */
  predicate Complete(session: Option<string>, body: Option<VerifyBody>)
  {
    Truthy(session) && body.Some? && Truthy(body.value.token) && Truthy(body.value.encryptedSecret)
  }

  /** The caller's row when the request is complete and two-factor sign-in is still off; otherwise -1. */
  function Candidate(session: Option<string>, body: Option<VerifyBody>, db: Table): (i: int)
    ensures -1 <= i < |db|
    ensures 0 <= i ==> (Complete(session, body) && db[i].id == session.value && !db[i].twoFactorEnabled)
    ensures 0 <= i <==> (Complete(session, body) && 0 <= FindUnique(db, IdColumn, session.value)
      && !db[FindUnique(db, IdColumn, session.value)].twoFactorEnabled)
  {
    if Complete(session, body) then
      var i := FindUnique(db, IdColumn, session.value);
      if 0 <= i && !db[i].twoFactorEnabled then i else -1
    else -1
  }

  /** The row after enrolment: the submitted text stored verbatim as the secret, the digests of the new codes, the time. */
  function Enroll(a: Account, enc: string, hashes: seq<string>, now: int): Account
  {
    a.(twoFactorEnabled := true, twoFactorSecret := Some(enc), twoFactorBackupCodes := hashes, twoFactorVerifiedAt := Some(now))
  }

  /** `now` is `new Date()`; the i-th random draw of `generateBackupCodes(8)` is `rng(i)`. */
  function Verify(p: Platform, session: Option<string>, body: Option<VerifyBody>, db: Table, now: int, rng: nat -> Word): (o: Outcome)
    ensures o.response.status == 401 <==> !Truthy(session)
    ensures o.response.status == 200 <==> (0 <= Candidate(session, body, db)
      && SecretToCheck(p, body.value.encryptedSecret.value).Ok?
      && VerifyTotp(p, body.value.token.value, SecretToCheck(p, body.value.encryptedSecret.value).value))
    ensures o.response == Fail(500, Failed) <==> (Truthy(session)
      && (body.None? || (0 <= Candidate(session, body, db) && SecretToCheck(p, body.value.encryptedSecret.value).Err?)))
    ensures o.response.status == 500 ==> o.response == Fail(500, Failed)
    ensures o.response == Fail(400, Required) <==> (Truthy(session) && body.Some? && !Complete(session, body))
    ensures o.response == Fail(404, UserNotFound) <==> (Complete(session, body) && FindUnique(db, IdColumn, session.value) < 0)
    ensures o.response == Fail(400, AlreadyEnabled) <==> (Complete(session, body)
      && 0 <= FindUnique(db, IdColumn, session.value) && db[FindUnique(db, IdColumn, session.value)].twoFactorEnabled)
    ensures o.response == Fail(400, InvalidCode) <==> (0 <= Candidate(session, body, db)
      && SecretToCheck(p, body.value.encryptedSecret.value).Ok?
      && !VerifyTotp(p, body.value.token.value, SecretToCheck(p, body.value.encryptedSecret.value).value))
    ensures o.response.status == 200 ==> (
      var i := Candidate(session, body, db);
      var codes := BackupCodes(BackupCodeCount, rng);
      o.response.body == Enrolled(codes) && |codes| == BackupCodeCount
      && OnlyRowChanged(db, o.db, i)
      && o.db[i] == Enroll(db[i], body.value.encryptedSecret.value, HashBackupCodes(p, codes), now))
    ensures o.response.status != 200 ==> o.db == db
    ensures UniqueKeys(db) ==> UniqueKeys(o.db)
    ensures Consistent(db) ==> Consistent(o.db)
  {
    if !Truthy(session) then Outcome(Fail(401, Unauthorized), db)
    else if body.None? then Outcome(Fail(500, Failed), db)
    else
      var b := body.value;
      if !Truthy(b.token) || !Truthy(b.encryptedSecret) then Outcome(Fail(400, Required), db)
      else
        var i := FindUnique(db, IdColumn, session.value);
        if i < 0 then Outcome(Fail(404, UserNotFound), db)
        else if db[i].twoFactorEnabled then Outcome(Fail(400, AlreadyEnabled), db)
        else
          match SecretToCheck(p, b.encryptedSecret.value)
          case Err(_) => Outcome(Fail(500, Failed), db)
          case Ok(secret) =>
            if !VerifyTotp(p, b.token.value, secret) then Outcome(Fail(400, InvalidCode), db)
            else
              var codes := BackupCodes(BackupCodeCount, rng);
              var after := Rewrite(db, i, Enroll(db[i], b.encryptedSecret.value, HashBackupCodes(p, codes), now));
              Outcome(Response(200, Enrolled(codes)), after)
  }
}
