/**
 * The NextAuth configuration (src/lib/auth.ts): the password provider, the
 * provider used after the second factor, and the JWT and session callbacks.
 */
module Auth {
  import opened Common
  import opened Oracles
  import opened Accounts

  /** The credentials object; a missing one behaves like one without fields. */
  datatype Credentials = Credentials(email: Option<string>, password: Option<string>)

  /** What the password provider's `authorize` does: return null, throw `2FA_REQUIRED`, or return the user. */
  datatype AuthResult = Reject | TwoFactorRequired | SignedIn(user: PublicUser)

  const TwoFactorRequiredError := "2FA_REQUIRED"

  /** The row whose stored hash matches the submitted password, or -1. */
  function PasswordMatch(b: Bcrypt, c: Credentials, db: Table): (i: int)
    ensures -1 <= i < |db|
    ensures 0 <= i ==> (Truthy(c.email) && Truthy(c.password) && db[i].email == c.email.value
      && Truthy(db[i].password) && b.compare(c.password.value, db[i].password.value))
    ensures UniqueKeys(db) && Truthy(c.email) && Truthy(c.password) && i == -1 ==>
      forall j | 0 <= j < |db| && db[j].email == c.email.value ::
        !Truthy(db[j].password) || !b.compare(c.password.value, db[j].password.value)
  {
    if Truthy(c.email) && Truthy(c.password) then
      var i := FindUnique(db, EmailColumn, c.email.value);
      if 0 <= i && Truthy(db[i].password) && b.compare(c.password.value, db[i].password.value) then i else -1
    else -1
  }

  /**
   * The `credentials` provider. The password is checked before the two-factor flag, so
   * `2FA_REQUIRED` is only ever raised for a correct password.
   */
  function AuthorizePassword(b: Bcrypt, c: Credentials, db: Table): (r: AuthResult)
    ensures r == Reject <==> PasswordMatch(b, c, db) == -1
    ensures r == TwoFactorRequired <==> (0 <= PasswordMatch(b, c, db) && db[PasswordMatch(b, c, db)].twoFactorEnabled)
    ensures r.SignedIn? ==> (0 <= PasswordMatch(b, c, db) && !db[PasswordMatch(b, c, db)].twoFactorEnabled
      && r.user == Public(db[PasswordMatch(b, c, db)]))
  {
    var i := PasswordMatch(b, c, db);
    if i < 0 then Reject
    else if db[i].twoFactorEnabled then TwoFactorRequired
    else SignedIn(Public(db[i]))
  }

  /** An account with two-factor sign-in on never gets a session from its password alone. */
  lemma PasswordAloneNeverSuffices(b: Bcrypt, c: Credentials, db: Table, j: int)
    requires UniqueKeys(db) && 0 <= j < |db| && db[j].twoFactorEnabled
    requires Truthy(c.email) && c.email.value == db[j].email
    ensures !AuthorizePassword(b, c, db).SignedIn?
  {
  }

  /**
   * The `credentials-2fa` provider: returns the user with the given id. It checks nothing
   * else, so any caller that knows an id obtains a session for that account.
   */
  function AuthorizeSecondFactor(userId: Option<string>, db: Table): (r: Option<PublicUser>)
    ensures r.Some? <==> Truthy(userId) && 0 <= FindUnique(db, IdColumn, userId.value)
    ensures r.Some? ==> r.value.id == userId.value && r.value == Public(db[FindUnique(db, IdColumn, userId.value)])
  {
    if !Truthy(userId) then None
    else
      var i := FindUnique(db, IdColumn, userId.value);
      if i < 0 then None else Some(Public(db[i]))
  }

  /** The id alone opens a session, whatever the account's two-factor state, with no code involved. */
  lemma {:induction false} SecondFactorProviderTrustsCaller(db: Table, j: int)
    requires UniqueKeys(db) && 0 <= j < |db| && db[j].id != ""
    ensures AuthorizeSecondFactor(Some(db[j].id), db) == Some(Public(db[j]))
  {
    assert FindUnique(db, IdColumn, db[j].id) == j;
  }

  /** The JWT: the claims the callbacks read and write. */
  class Token {
    var id: Option<string>
    var role: Option<Role>

    constructor(id: Option<string>, role: Option<Role>)
      ensures this.id == id && this.role == role
    {
      this.id := id;
      this.role := role;
    }
  }

  class SessionUser {
    var id: Option<string>
    var role: Option<Role>
    var email: Option<string>
    var name: Option<string>

    constructor(email: Option<string>, name: Option<string>)
      ensures this.email == email && this.name == name && id.None? && role.None?
    {
      this.email := email;
      this.name := name;
      id := None;
      role := None;
    }
  }

  class Session {
    var user: SessionUser?

    constructor(user: SessionUser?)
      ensures this.user == user
    {
      this.user := user;
    }
  }

  /** The `jwt` callback: at sign-in (a user is present) copies the user's id and role into the token. */
  method JwtCallback(token: Token, user: Option<PublicUser>) returns (r: Token)
    modifies token
    ensures r == token
    ensures user.Some? ==> token.id == Some(user.value.id) && token.role == Some(user.value.role)
    ensures user.None? ==> token.id == old(token.id) && token.role == old(token.role)
  {
    if user.Some? {
      token.id := Some(user.value.id);
      token.role := Some(user.value.role);
    }
    r := token;
  }

  /** The `session` callback: copies id and role from the token onto the session's user, if there is one. */
  method SessionCallback(session: Session, token: Token) returns (r: Session)
    modifies session.user
    ensures r == session && session.user == old(session.user)
    ensures session.user != null ==> session.user.id == token.id && session.user.role == token.role
    ensures session.user != null ==> session.user.email == old(session.user.email) && session.user.name == old(session.user.name)
  {
    var u := session.user;
    if u != null {
      u.id := token.id;
      u.role := token.role;
    }
    r := session;
  }
}
