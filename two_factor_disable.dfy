/**
 * `POST /api/2fa/disable` (src/app/api/2fa/disable/route.ts): switches
 * two-factor sign-in off after a TOTP code or a backup code.
 */
module TwoFactorDisable {
  import opened Common
  import opened Oracles
  import opened Totp
  import opened Accounts
  import opened SecondFactor

  datatype DisableBody = DisableBody(token: Option<string>)

  const Required := "Verification code is required"
  const NotEnabled := "2FA is not enabled"
  const Failed := "Failed to disable 2FA"

  /** The caller's row when the request carries a code and two-factor sign-in is on; otherwise -1. */
  function Candidate(session: Option<string>, body: Option<DisableBody>, db: Table): (i: int)
    ensures -1 <= i < |db|
    ensures 0 <= i ==> (Truthy(session) && body.Some? && Truthy(body.value.token)
      && db[i].id == session.value && db[i].twoFactorEnabled)
    ensures 0 <= i <==> (Truthy(session) && body.Some? && Truthy(body.value.token)
      && 0 <= FindUnique(db, IdColumn, session.value) && db[FindUnique(db, IdColumn, session.value)].twoFactorEnabled)
  {
    if Truthy(session) && body.Some? && Truthy(body.value.token) then
      var i := FindUnique(db, IdColumn, session.value);
      if 0 <= i && db[i].twoFactorEnabled then i else -1
    else -1
  }

  /** The TOTP verdict for the candidate row; a missing secret (`null!`) makes `decryptSecret` throw. */
  function TotpFor(p: Platform, session: Option<string>, body: Option<DisableBody>, db: Table): Result<bool, CryptoError>
    requires 0 <= Candidate(session, body, db)
  {
    var a := db[Candidate(session, body, db)];
    if a.twoFactorSecret.None? then Err(InvalidFormat)
    else StoredTotp(p, a.twoFactorSecret.value, body.value.token.value)
  }

  function BackupFor(p: Platform, session: Option<string>, body: Option<DisableBody>, db: Table): BackupCheck
    requires 0 <= Candidate(session, body, db)
  {
    VerifyBackupCode(p, body.value.token.value, db[Candidate(session, body, db)].twoFactorBackupCodes)
  }

  /** The row after disabling, keeping `codes` as the stored digests. */
  function Cleared(a: Account, codes: seq<string>): Account
  {
    a.(twoFactorEnabled := false, twoFactorSecret := None, twoFactorBackupCodes := codes, twoFactorVerifiedAt := None)
  }

  function Disable(p: Platform, session: Option<string>, body: Option<DisableBody>, db: Table): (o: Outcome)
    ensures o.response.status == 401 <==> !Truthy(session)
    ensures o.response.status == 200 <==> (0 <= Candidate(session, body, db)
      && (TotpFor(p, session, body, db) == Ok(true)
          || (TotpFor(p, session, body, db) == Ok(false) && BackupFor(p, session, body, db).valid)))
    ensures o.response == Fail(500, Failed) <==> (Truthy(session)
      && (body.None? || (0 <= Candidate(session, body, db) && TotpFor(p, session, body, db).Err?)))
    ensures o.response.status == 500 ==> o.response == Fail(500, Failed)
    ensures o.response == Fail(400, Required) <==> (Truthy(session) && body.Some? && !Truthy(body.value.token))
    ensures o.response == Fail(400, NotEnabled) <==> (Truthy(session) && body.Some? && Truthy(body.value.token)
      && (FindUnique(db, IdColumn, session.value) < 0 || !db[FindUnique(db, IdColumn, session.value)].twoFactorEnabled))
    // an empty list of backup codes and a code that matches none of them are answered alike
    ensures o.response == Fail(400, InvalidCode) <==> (0 <= Candidate(session, body, db)
      && TotpFor(p, session, body, db) == Ok(false) && !BackupFor(p, session, body, db).valid)
    // a TOTP code clears every backup code; a backup code leaves the other ones stored
    ensures o.response.status == 200 ==> (
      var i := Candidate(session, body, db);
      o.response.body == Success && OnlyRowChanged(db, o.db, i)
      && (TotpFor(p, session, body, db) == Ok(true) ==> o.db[i] == Cleared(db[i], []))
      && (TotpFor(p, session, body, db) != Ok(true) ==>
            o.db[i] == Cleared(db[i], BackupFor(p, session, body, db).remainingCodes)
            && |o.db[i].twoFactorBackupCodes| == |db[i].twoFactorBackupCodes| - 1))
    ensures o.response.status != 200 ==> o.db == db
    ensures UniqueKeys(db) ==> UniqueKeys(o.db)
    ensures Consistent(db) ==> Consistent(o.db)
  {
    if !Truthy(session) then Outcome(Fail(401, Unauthorized), db)
    else if body.None? then Outcome(Fail(500, Failed), db)
    else
      var b := body.value;
      if !Truthy(b.token) then Outcome(Fail(400, Required), db)
      else
        var i := FindUnique(db, IdColumn, session.value);
        if i < 0 || !db[i].twoFactorEnabled then Outcome(Fail(400, NotEnabled), db)
        else
          var u := db[i];
          var verdict := if u.twoFactorSecret.None? then Err(InvalidFormat) else StoredTotp(p, u.twoFactorSecret.value, b.token.value);
          match verdict
          case Err(_) => Outcome(Fail(500, Failed), db)
          case Ok(true) =>
            var after := Rewrite(db, i, Cleared(u, []));
            Outcome(Response(200, Success), after)
          case Ok(false) =>
            if u.twoFactorBackupCodes == [] then Outcome(Fail(400, InvalidCode), db)
            else
              var check := VerifyBackupCode(p, b.token.value, u.twoFactorBackupCodes);
              if !check.valid then Outcome(Fail(400, InvalidCode), db)
              else
                var after := Rewrite(db, i, Cleared(u, check.remainingCodes));
                Outcome(Response(200, Success), after)
  }
}
