/**
 * `POST /api/2fa/setup` (src/app/api/2fa/setup/route.ts): issues a new
 * secret, its encrypted form and a QR code. Nothing is stored.
 */
module TwoFactorSetup {
  import opened Common
  import opened Oracles
  import opened Totp
  import opened Accounts

  const AlreadyEnabled := "2FA is already enabled. Disable it first to set up again."
  const Failed := "Failed to generate 2FA setup"

  /** `secret` is what `generateTOTPSecret()` returned and `iv` the random bytes `encryptSecret` drew. */
  function Setup(p: Platform, session: Option<string>, db: Table, secret: string, iv: seq<bv8>): (o: Outcome)
    requires |iv| == 16
    ensures o.db == db
    ensures o.response.status == 401 <==> !Truthy(session)
    ensures o.response.status == 200 <==> (Truthy(session) && 0 <= FindUnique(db, IdColumn, session.value)
      && !db[FindUnique(db, IdColumn, session.value)].twoFactorEnabled
      && QrCodeDataUrl(p, secret, db[FindUnique(db, IdColumn, session.value)].email).Some?)
    ensures o.response == Fail(404, UserNotFound) <==> (Truthy(session) && FindUnique(db, IdColumn, session.value) < 0)
    ensures o.response == Fail(400, AlreadyEnabled) <==> (Truthy(session) && 0 <= FindUnique(db, IdColumn, session.value)
      && db[FindUnique(db, IdColumn, session.value)].twoFactorEnabled)
    // a QR code that cannot be rendered is the only failure after the checks
    ensures o.response == Fail(500, Failed) <==> (Truthy(session) && 0 <= FindUnique(db, IdColumn, session.value)
      && !db[FindUnique(db, IdColumn, session.value)].twoFactorEnabled
      && QrCodeDataUrl(p, secret, db[FindUnique(db, IdColumn, session.value)].email).None?)
    ensures o.response.status in {200, 400, 401, 404, 500}
    // the QR code encodes the new secret for the caller's address
    ensures o.response.status == 200 ==> (
      && o.response.body.SetupInfo? && o.response.body.secret == secret
      && Some(o.response.body.qrCode) == QrCodeDataUrl(p, secret, db[FindUnique(db, IdColumn, session.value)].email)
      && o.response.body.encryptedSecret == EncryptSecret(p, secret, None, iv))
  {
    if !Truthy(session) then Outcome(Fail(401, Unauthorized), db)
    else
      var i := FindUnique(db, IdColumn, session.value);
      if i < 0 then Outcome(Fail(404, UserNotFound), db)
      else if db[i].twoFactorEnabled then Outcome(Fail(400, AlreadyEnabled), db)
      else
        var enc := EncryptSecret(p, secret, None, iv);
        match QrCodeDataUrl(p, secret, db[i].email)
        case None => Outcome(Fail(500, Failed), db)
        case Some(qr) =>
          Outcome(Response(200, SetupInfo(secret, enc, qr)), db)
  }
}
