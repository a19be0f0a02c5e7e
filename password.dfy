/** `POST /api/user/password` (src/app/api/user/password/route.ts): changes the signed-in user's password. */
module ChangePassword {
  import opened Common
  import opened Oracles
  import opened Accounts
  import SecurityConfig
  import Auth

  /** The JSON body; a missing or non-string field is `None`. */
  datatype PasswordBody = PasswordBody(currentPassword: Option<string>, newPassword: Option<string>)

  const ValidationFailed := "Validation failed"
  const WrongPassword := "Current password is incorrect"
  const Failed := "Failed to change password"

  /** `changePasswordSchema`: both strings of at least 8 characters, the new one of at most 100. */
  predicate ValidBody(b: PasswordBody)
  {
    && b.currentPassword.Some? && |b.currentPassword.value| >= SecurityConfig.PasswordMinLength
    && b.newPassword.Some? && SecurityConfig.PasswordMinLength <= |b.newPassword.value| <= SecurityConfig.PasswordMaxLength
  }

  /** The signed-in user's row when the request is valid and the account has a password; otherwise -1. */
  function Candidate(sessionEmail: Option<string>, body: Option<PasswordBody>, db: Table): (i: int)
    ensures -1 <= i < |db|
    ensures 0 <= i ==> (Truthy(sessionEmail) && body.Some? && ValidBody(body.value)
      && db[i].email == sessionEmail.value && Truthy(db[i].password))
    ensures 0 <= i <==> (Truthy(sessionEmail) && body.Some? && ValidBody(body.value)
      && 0 <= FindUnique(db, EmailColumn, sessionEmail.value) && Truthy(db[FindUnique(db, EmailColumn, sessionEmail.value)].password))
  {
    if Truthy(sessionEmail) && body.Some? && ValidBody(body.value) then
      var i := FindUnique(db, EmailColumn, sessionEmail.value);
      if 0 <= i && Truthy(db[i].password) then i else -1
    else -1
  }

  /** `body == None` stands for a request body that is not JSON. */
  function ChangePassword(b: Bcrypt, sessionEmail: Option<string>, body: Option<PasswordBody>, db: Table): (o: Outcome)
    ensures o.response.status == 401 <==> !Truthy(sessionEmail)
    ensures o.response.status == 400 && o.response.body == Error(ValidationFailed) <==>
      (Truthy(sessionEmail) && body.Some? && !ValidBody(body.value))
    ensures o.response == Fail(500, Failed) <==> (Truthy(sessionEmail) && body.None?)
    ensures o.response == Fail(404, UserNotFound) <==> (Truthy(sessionEmail) && body.Some? && ValidBody(body.value)
      && (FindUnique(db, EmailColumn, sessionEmail.value) < 0 || !Truthy(db[FindUnique(db, EmailColumn, sessionEmail.value)].password)))
    ensures o.response == Fail(400, WrongPassword) <==> (0 <= Candidate(sessionEmail, body, db)
      && !b.compare(body.value.currentPassword.value, db[Candidate(sessionEmail, body, db)].password.value))
    // the password is replaced only after the current one is confirmed
    ensures o.response.status == 200 <==> (0 <= Candidate(sessionEmail, body, db)
      && b.compare(body.value.currentPassword.value, db[Candidate(sessionEmail, body, db)].password.value))
    // only the password field of the caller's row changes, to a hash with the configured cost
    ensures o.response.status == 200 ==> (
      var i := Candidate(sessionEmail, body, db);
      o.response.body == Success && OnlyRowChanged(db, o.db, i)
      && o.db[i] == db[i].(password := Some(b.hash(body.value.newPassword.value, SecurityConfig.PasswordHashRounds))))
    ensures o.response.status != 200 ==> o.db == db
    ensures UniqueKeys(db) ==> UniqueKeys(o.db)
    ensures Consistent(db) ==> Consistent(o.db)
  {
    if !Truthy(sessionEmail) then Outcome(Fail(401, Unauthorized), db)
    else if body.None? then Outcome(Fail(500, Failed), db)
    else if !ValidBody(body.value) then Outcome(Fail(400, ValidationFailed), db)
    else
      var current, next := body.value.currentPassword.value, body.value.newPassword.value;
      var i := FindUnique(db, EmailColumn, sessionEmail.value);
      if i < 0 || !Truthy(db[i].password) then Outcome(Fail(404, UserNotFound), db)
      else if !b.compare(current, db[i].password.value) then Outcome(Fail(400, WrongPassword), db)
      else
        var after := Rewrite(db, i, db[i].(password := Some(b.hash(next, SecurityConfig.PasswordHashRounds))));
        Outcome(Response(200, Success), after)
  }

  /** After a change, the new password passes the password provider's check for that account. */
  lemma {:induction false} NewPasswordAccepted(b: Bcrypt, sessionEmail: Option<string>, body: Option<PasswordBody>, db: Table)
    requires SoundBcrypt(b) && UniqueKeys(db)
    requires ChangePassword(b, sessionEmail, body, db).response.status == 200
    ensures
      var after := ChangePassword(b, sessionEmail, body, db).db;
      Auth.AuthorizePassword(b, Auth.Credentials(sessionEmail, body.value.newPassword), after) != Auth.Reject
  {
    var i := Candidate(sessionEmail, body, db);
    var after := ChangePassword(b, sessionEmail, body, db).db;
    var c := Auth.Credentials(sessionEmail, body.value.newPassword);
    assert FindUnique(after, EmailColumn, sessionEmail.value) == i;
    assert b.compare(body.value.newPassword.value, after[i].password.value);
    assert Auth.PasswordMatch(b, c, after) == i;
  }
}
