/**
 * How the four two-factor routes fit together: setup, then verify,
 * then sign-in with a TOTP code or a backup code, then disable.
 */
module TwoFactorLifecycle {
  import opened Common
  import opened Oracles
  import opened Totp
  import opened Accounts
  import SecondFactor
  import TwoFactorLogin
  import TwoFactorVerify
  import TwoFactorDisable
  import TwoFactorSetup

  /**
   * Posting back the `encryptedSecret` that setup returned, with a code that is valid for the
   * `secret` it returned, switches two-factor sign-in on, and the stored text decrypts to that secret.
   */
  lemma {:induction false} SetupThenVerifyEnrols(
    p: Platform, session: Option<string>, db: Table, secret: string, iv: seq<bv8>,
    token: string, now: int, rng: nat -> Word)
    requires SoundCipher(p) && |iv| == 16
    requires TwoFactorSetup.Setup(p, session, db, secret, iv).response.status == 200
    requires token != "" && p.otpVerify(token, secret) == Returned(true)
    ensures
      var enc := TwoFactorSetup.Setup(p, session, db, secret, iv).response.body.encryptedSecret;
      var o := TwoFactorVerify.Verify(p, session, Some(TwoFactorVerify.VerifyBody(Some(token), Some(enc))), db, now, rng);
      var i := FindUnique(db, IdColumn, session.value);
      o.response.status == 200 && o.db[i].twoFactorEnabled
      && DecryptSecret(p, o.db[i].twoFactorSecret.value, None) == Ok(secret)
  {
    var enc := EncryptSecret(p, secret, None, iv);
    DecryptEncrypt(p, secret, None, None, iv);
    assert TwoFactorVerify.SecretToCheck(p, enc) == Ok(secret);
  }

  /** Sign-in request for the address and code given. */
  function LoginWith(email: string, token: string): Option<TwoFactorLogin.LoginBody>
  {
    Some(TwoFactorLogin.LoginBody(Some(email), Some(token)))
  }

  /** After a successful verify, `Candidate` of every later route finds the same row. */
  lemma {:induction false} EnrolledRowIsFound(
    p: Platform, session: Option<string>, body: Option<TwoFactorVerify.VerifyBody>, db: Table, now: int, rng: nat -> Word,
    token: string)
    requires UniqueKeys(db)
    requires TwoFactorVerify.Verify(p, session, body, db, now, rng).response.status == 200
    requires token != ""
    ensures
      var i := TwoFactorVerify.Candidate(session, body, db);
      var after := TwoFactorVerify.Verify(p, session, body, db, now, rng).db;
      UniqueKeys(after)
      && (db[i].email != "" ==> TwoFactorLogin.Candidate(LoginWith(db[i].email, token), after) == i)
      && TwoFactorDisable.Candidate(session, Some(TwoFactorDisable.DisableBody(Some(token))), after) == i
  {
    var i := TwoFactorVerify.Candidate(session, body, db);
    var after := TwoFactorVerify.Verify(p, session, body, db, now, rng).db;
    assert after[i].email == db[i].email && after[i].id == db[i].id;
    assert after[i].twoFactorEnabled;
  }

  /** Signing in to row `i` with a code the TOTP check rejects: accepted exactly when it is a stored backup code, which is consumed. */
  lemma {:induction false} LoginByBackupCode(p: Platform, db: Table, i: int, code: string)
    requires UniqueKeys(db) && 0 <= i < |db|
    requires db[i].twoFactorEnabled && Truthy(db[i].twoFactorSecret) && db[i].email != "" && code != ""
    requires SecondFactor.StoredTotp(p, db[i].twoFactorSecret.value, code) == Ok(false)
    ensures
      var o := TwoFactorLogin.Login(p, LoginWith(db[i].email, code), db);
      var check := VerifyBackupCode(p, code, db[i].twoFactorBackupCodes);
      (check.valid ==> TwoFactorLogin.Accepted(o) && o.db == db[i := db[i].(twoFactorBackupCodes := check.remainingCodes)])
      && (!check.valid ==> o.response == Response(200, LoginCheck(false, None)) && o.db == db)
  {
    var req := LoginWith(db[i].email, code);
    assert TwoFactorLogin.Candidate(req, db) == i;
  }

  /**
   * A backup code issued at enrolment signs in once when the TOTP check rejects it,
   * and the same code is refused the second time.
   */
  lemma {:induction false} IssuedBackupCodeWorksOnce(
    p: Platform, session: Option<string>, body: Option<TwoFactorVerify.VerifyBody>, db: Table, now: int, rng: nat -> Word,
    k: nat)
    requires UniqueKeys(db)
    requires TwoFactorVerify.Verify(p, session, body, db, now, rng).response.status == 200
    requires Distinct(HashBackupCodes(p, BackupCodes(TwoFactorVerify.BackupCodeCount, rng)))
    requires k < TwoFactorVerify.BackupCodeCount
    requires
      var enc := body.value.encryptedSecret.value;
      var code := BackupCodes(TwoFactorVerify.BackupCodeCount, rng)[k];
      DecryptSecret(p, enc, None).Ok? && p.otpVerify(code, DecryptSecret(p, enc, None).value) != Returned(true)
    requires db[TwoFactorVerify.Candidate(session, body, db)].email != ""
    ensures
      var i := TwoFactorVerify.Candidate(session, body, db);
      var code := BackupCodes(TwoFactorVerify.BackupCodeCount, rng)[k];
      var enrolled := TwoFactorVerify.Verify(p, session, body, db, now, rng).db;
      var first := TwoFactorLogin.Login(p, LoginWith(db[i].email, code), enrolled);
      var second := TwoFactorLogin.Login(p, LoginWith(db[i].email, code), first.db);
      TwoFactorLogin.Accepted(first) && second.response == Response(200, LoginCheck(false, None))
  {
    var i := TwoFactorVerify.Candidate(session, body, db);
    var codes := BackupCodes(TwoFactorVerify.BackupCodeCount, rng);
    var code := codes[k];
    var hashes := HashBackupCodes(p, codes);
    var enc := body.value.encryptedSecret.value;
    var enrolled := TwoFactorVerify.Verify(p, session, body, db, now, rng).db;
    EnrolledRowIsFound(p, session, body, db, now, rng, code);
    assert enrolled[i].twoFactorBackupCodes == hashes;
    assert enrolled[i].twoFactorSecret == Some(enc);
    assert SecondFactor.StoredTotp(p, enc, code) == Ok(false);
    IssuedCodesAccepted(p, TwoFactorVerify.BackupCodeCount, rng, k);
    LoginByBackupCode(p, enrolled, i, code);
    var first := TwoFactorLogin.Login(p, LoginWith(db[i].email, code), enrolled);
    var rest := VerifyBackupCode(p, code, hashes).remainingCodes;
    BackupCodeSingleUse(p, code, hashes);
    assert first.db == Rewrite(enrolled, i, enrolled[i].(twoFactorBackupCodes := rest));
    LoginByBackupCode(p, first.db, i, code);
  }

  /**
   * A text without `:` that passes verify (its base64 decoding was checked) is stored as the
   * secret verbatim; every later sign-in and disable attempt of that account then fails with 500.
   */
  lemma {:induction false} PlaintextSecretLocksOut(
    p: Platform, session: Option<string>, body: Option<TwoFactorVerify.VerifyBody>, db: Table, now: int, rng: nat -> Word,
    token: string)
    requires UniqueKeys(db)
    requires TwoFactorVerify.Verify(p, session, body, db, now, rng).response.status == 200
    requires ':' !in body.value.encryptedSecret.value
    requires token != ""
    ensures
      var i := TwoFactorVerify.Candidate(session, body, db);
      var after := TwoFactorVerify.Verify(p, session, body, db, now, rng).db;
      (db[i].email != "" ==> TwoFactorLogin.Login(p, LoginWith(db[i].email, token), after).response.status == 500)
      && TwoFactorDisable.Disable(p, session, Some(TwoFactorDisable.DisableBody(Some(token))), after).response.status == 500
  {
    var i := TwoFactorVerify.Candidate(session, body, db);
    var after := TwoFactorVerify.Verify(p, session, body, db, now, rng).db;
    var enc := body.value.encryptedSecret.value;
    EnrolledRowIsFound(p, session, body, db, now, rng, token);
    assert after[i].twoFactorSecret == Some(enc);
    assert DecryptSecret(p, enc, None) == Err(InvalidFormat);
  }

  /** The decrypt branch of verify for a text whose second field is empty ends in 500, whatever the code. */
  lemma ColonInDecodedSecretFails(
    p: Platform, session: Option<string>, body: Option<TwoFactorVerify.VerifyBody>, db: Table, now: int, rng: nat -> Word)
    requires 0 <= TwoFactorVerify.Candidate(session, body, db)
    requires SecondField(body.value.encryptedSecret.value) == ""
    requires ':' in p.base64Utf8(body.value.encryptedSecret.value)
    ensures TwoFactorVerify.Verify(p, session, body, db, now, rng).response.status == 500
  {
  }

  predicate NoneSwitchedOn(before: Table, after: Table)
  {
    |after| == |before| && forall j | 0 <= j < |before| :: after[j].twoFactorEnabled ==> before[j].twoFactorEnabled
  }

  /** Only verify switches two-factor sign-in on: sign-in, disable and setup never do. */
  lemma {:induction false} OnlyVerifyEnables(
    p: Platform, session: Option<string>, db: Table,
    login: Option<TwoFactorLogin.LoginBody>, disable: Option<TwoFactorDisable.DisableBody>,
    secret: string, iv: seq<bv8>)
    requires |iv| == 16
    ensures NoneSwitchedOn(db, TwoFactorLogin.Login(p, login, db).db)
    ensures NoneSwitchedOn(db, TwoFactorDisable.Disable(p, session, disable, db).db)
    ensures NoneSwitchedOn(db, TwoFactorSetup.Setup(p, session, db, secret, iv).db)
  {
    var l := TwoFactorLogin.Login(p, login, db);
    if l.db != db {
      var i := TwoFactorLogin.Candidate(login, db);
      forall j | 0 <= j < |db| ensures l.db[j].twoFactorEnabled ==> db[j].twoFactorEnabled {
        if j != i { assert l.db[j] == db[j]; }
      }
    }
    var d := TwoFactorDisable.Disable(p, session, disable, db);
    if d.db != db {
      var i := TwoFactorDisable.Candidate(session, disable, db);
      forall j | 0 <= j < |db| ensures d.db[j].twoFactorEnabled ==> db[j].twoFactorEnabled {
        if j != i { assert d.db[j] == db[j]; }
      }
    }
  }
}
