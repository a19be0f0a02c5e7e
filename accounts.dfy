/**
 * The `User` table as the route handlers see it through Prisma, and the
 * JSON responses they return.
 *
 * A table is a sequence of rows; `findUnique` on the unique `id` and `email`
 * columns is a search for the matching row, and `update({ where: { id } })`
 * rewrites that one row.
 */
module Accounts {
  import opened Common

  datatype Role = Admin | Editor

  datatype Account = Account(
    id: string,
    email: string,
    name: Option<string>,
    role: Role,
    /** bcrypt hash; absent for accounts without a password */
    password: Option<string>,
    twoFactorEnabled: bool,
    twoFactorSecret: Option<string>,
    /** SHA-256 hex digests of the unused backup codes */
    twoFactorBackupCodes: seq<string>,
    /** milliseconds since the epoch */
    twoFactorVerifiedAt: Option<int>)

  type Table = seq<Account>

  /** `id` and `email` are unique columns. */
  predicate UniqueKeys(db: Table)
  {
    forall i, j | 0 <= i < j < |db| :: db[i].id != db[j].id && db[i].email != db[j].email
  }

  /** An account with two-factor sign-in switched on has a secret to check codes against. */
  predicate Consistent(db: Table)
  {
    forall i | 0 <= i < |db| :: db[i].twoFactorEnabled ==> Truthy(db[i].twoFactorSecret)
  }

  /** The two unique columns `findUnique` can search. */
  datatype UniqueColumn = IdColumn | EmailColumn

  function KeyOf(a: Account, c: UniqueColumn): string
  {
    match c
    case IdColumn => a.id
    case EmailColumn => a.email
  }

  /** `findUnique({ where: { id } })` or `findUnique({ where: { email } })`: the row whose column holds `k`, or -1. */
  function FindUnique(db: Table, c: UniqueColumn, k: string): (i: int)
    ensures -1 <= i < |db|
    ensures i == -1 <==> forall j | 0 <= j < |db| :: KeyOf(db[j], c) != k
    ensures 0 <= i ==> KeyOf(db[i], c) == k
    ensures UniqueKeys(db) ==> forall j | 0 <= j < |db| && KeyOf(db[j], c) == k :: j == i
  {
    if db == [] then -1
    else if KeyOf(db[|db| - 1], c) == k then |db| - 1
    else FindUnique(db[..|db| - 1], c, k)
  }

  /** Row `i` may have changed, its keys did not, and no other row changed. */
  predicate OnlyRowChanged(before: Table, after: Table, i: int)
  {
    |after| == |before| && 0 <= i < |before|
    && after[i].id == before[i].id && after[i].email == before[i].email
    && forall j | 0 <= j < |before| && j != i :: after[j] == before[j]
  }

  /** Rewriting one row without touching its keys keeps the keys unique. */
  lemma {:induction false} OnlyRowChangedKeepsKeys(before: Table, after: Table, i: int)
    requires OnlyRowChanged(before, after, i)
    ensures UniqueKeys(before) ==> UniqueKeys(after)
  {
    if UniqueKeys(before) {
      forall a, b | 0 <= a < b < |after| ensures after[a].id != after[b].id && after[a].email != after[b].email {
        assert after[a].id == before[a].id && after[a].email == before[a].email;
        assert after[b].id == before[b].id && after[b].email == before[b].email;
      }
    }
  }

  /** Rewriting one row into a consistent one keeps the table consistent. */
  lemma {:induction false} OnlyRowChangedKeepsConsistent(before: Table, after: Table, i: int)
    requires OnlyRowChanged(before, after, i)
    ensures Consistent(before) && (after[i].twoFactorEnabled ==> Truthy(after[i].twoFactorSecret)) ==> Consistent(after)
  {
    if Consistent(before) && (after[i].twoFactorEnabled ==> Truthy(after[i].twoFactorSecret)) {
      forall j | 0 <= j < |after| ensures after[j].twoFactorEnabled ==> Truthy(after[j].twoFactorSecret) {
        if j != i {
          assert after[j] == before[j];
        }
      }
    }
  }

  /** `update({ where: { id }, data })` on a row found before: that row becomes `row`, the others stay. */
  function Rewrite(db: Table, i: int, row: Account): (after: Table)
    requires 0 <= i < |db| && row.id == db[i].id && row.email == db[i].email
    ensures OnlyRowChanged(db, after, i) && after[i] == row
    ensures UniqueKeys(db) ==> UniqueKeys(after)
    ensures Consistent(db) && (row.twoFactorEnabled ==> Truthy(row.twoFactorSecret)) ==> Consistent(after)
  {
    var after := db[i := row];
    OnlyRowChangedKeepsKeys(db, after, i);
    OnlyRowChangedKeepsConsistent(db, after, i);
    after
  }

  /** The user fields a successful sign-in returns. */
  datatype PublicUser = PublicUser(id: string, email: string, name: Option<string>, role: Role)

  function Public(a: Account): PublicUser
  {
    PublicUser(a.id, a.email, a.name, a.role)
  }

  datatype Body =
    | Error(message: string)
    | LoginCheck(valid: bool, user: Option<PublicUser>)
    | Success
    | Enrolled(backupCodes: seq<string>)
    | SetupInfo(secret: string, encryptedSecret: string, qrCode: string)

  datatype Response = Response(status: int, body: Body)

  /** A handler's answer together with the table it leaves behind. */
  datatype Outcome = Outcome(response: Response, db: Table)

  const Unauthorized := "Unauthorized"
  const UserNotFound := "User not found"
  const InvalidCode := "Invalid verification code"

  function Fail(status: int, message: string): Response
  {
    Response(status, Error(message))
  }
}
