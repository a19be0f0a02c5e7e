/**
 * `POST /api/2fa/login` (src/app/api/2fa/login/route.ts): the second step of
 * a sign-in, which accepts a TOTP code or consumes one backup code.
 */
module TwoFactorLogin {
  import opened Common
  import opened Oracles
  import opened Totp
  import opened Accounts
  import opened SecondFactor

  /** The parsed JSON body; `None` stands for a body that is not JSON (`request.json()` throws). */
  datatype LoginBody = LoginBody(email: Option<string>, token: Option<string>)

  const Required := "Email and token are required"
  const NotEnabled := "2FA is not enabled for this user"
  const Failed := "Failed to verify 2FA"

  /**
   * The row a request may sign in to: the body names an e-mail address and a token, and the
   * account with that address has two-factor sign-in switched on and a secret; otherwise -1.
   */
  function Candidate(body: Option<LoginBody>, db: Table): (i: int)
    ensures -1 <= i < |db|
    ensures 0 <= i ==> (body.Some? && Truthy(body.value.token) && Truthy(body.value.email)
      && db[i].email == body.value.email.value && db[i].twoFactorEnabled && Truthy(db[i].twoFactorSecret))
  {
    if body.Some? && Truthy(body.value.email) && Truthy(body.value.token) then
      var i := FindUnique(db, EmailColumn, body.value.email.value);
      if 0 <= i && db[i].twoFactorEnabled && Truthy(db[i].twoFactorSecret) then i else -1
    else -1
  }

  /** The TOTP verdict for the candidate row. */
  function TotpFor(p: Platform, body: Option<LoginBody>, db: Table): Result<bool, CryptoError>
    requires 0 <= Candidate(body, db)
  {
    StoredTotp(p, db[Candidate(body, db)].twoFactorSecret.value, body.value.token.value)
  }

  /** The backup-code check for the candidate row. */
  function BackupFor(p: Platform, body: Option<LoginBody>, db: Table): BackupCheck
    requires 0 <= Candidate(body, db)
  {
    VerifyBackupCode(p, body.value.token.value, db[Candidate(body, db)].twoFactorBackupCodes)
  }

  predicate Accepted(o: Outcome)
  {
    o.response.status == 200 && o.response.body.LoginCheck? && o.response.body.valid
  }

  function Login(p: Platform, body: Option<LoginBody>, db: Table): (o: Outcome)
    ensures o.response.status in {200, 400, 500}
    ensures o.response.status == 400 <==> body.Some? && Candidate(body, db) == -1
    ensures o.response.status == 500 <==> body.None? || (0 <= Candidate(body, db) && TotpFor(p, body, db).Err?)
    ensures o.response == Fail(400, Required) <==> body.Some? && !(Truthy(body.value.email) && Truthy(body.value.token))
    ensures o.response == Fail(400, NotEnabled) <==>
      (body.Some? && Truthy(body.value.email) && Truthy(body.value.token) && Candidate(body, db) == -1)
    ensures o.response.status == 500 ==> o.response == Fail(500, Failed)
    // a positive answer names the candidate and needs a TOTP code or an unused backup code
    ensures Accepted(o) <==> (0 <= Candidate(body, db)
      && (TotpFor(p, body, db) == Ok(true) || (TotpFor(p, body, db) == Ok(false) && BackupFor(p, body, db).valid)))
    ensures Accepted(o) ==> o.response.body.user == Some(Public(db[Candidate(body, db)]))
    ensures o.response.status == 200 && !Accepted(o) ==> o.response.body == LoginCheck(false, None)
    // the table changes only when a backup code is consumed, and then only that code
    ensures o.db != db ==> (Accepted(o) && TotpFor(p, body, db) == Ok(false)
      && OnlyRowChanged(db, o.db, Candidate(body, db))
      && o.db[Candidate(body, db)] == db[Candidate(body, db)].(twoFactorBackupCodes := BackupFor(p, body, db).remainingCodes))
    ensures UniqueKeys(db) ==> UniqueKeys(o.db)
    ensures Consistent(db) ==> Consistent(o.db)
  {
    if body.None? then Outcome(Fail(500, Failed), db)
    else
      var b := body.value;
      if !Truthy(b.email) || !Truthy(b.token) then Outcome(Fail(400, Required), db)
      else
        var i := FindUnique(db, EmailColumn, b.email.value);
        if i < 0 || !db[i].twoFactorEnabled || !Truthy(db[i].twoFactorSecret) then Outcome(Fail(400, NotEnabled), db)
        else
          var u := db[i];
          match StoredTotp(p, u.twoFactorSecret.value, b.token.value)
          case Err(_) => Outcome(Fail(500, Failed), db)
          case Ok(true) => Outcome(Response(200, LoginCheck(true, Some(Public(u)))), db)
          case Ok(false) =>
            if u.twoFactorBackupCodes == [] then Outcome(Response(200, LoginCheck(false, None)), db)
            else
              var check := VerifyBackupCode(p, b.token.value, u.twoFactorBackupCodes);
              if check.valid then
                var after := Rewrite(db, i, u.(twoFactorBackupCodes := check.remainingCodes));
                Outcome(Response(200, LoginCheck(true, Some(Public(u)))), after)
              else Outcome(Response(200, LoginCheck(false, None)), db)
  }
}
