# nedcloud-website: a Dafny model of the authentication core and the admin logic

This project models, in Dafny, the parts of the Nedcloud Solutions website
(a Next.js/TypeScript site with an admin area) that make decisions. It covers:

- **Rate limiting** (`src/lib/rateLimit.ts`): a fixed window per `type:ip` key
  held in an in-memory map, and the sweep that deletes expired windows.
- **Two-factor sign-in primitives** (`src/lib/totp.ts`):
  - generating, hashing and single-use checking of backup codes;
  - the `ivHex:cipherHex` format of the encrypted TOTP secret and its key fallback;
  - the wrapper that turns an exception from the TOTP library into `false`.
- **The two-factor account state machine.** This covers the four `/api/2fa/*`
  route handlers (setup, verify, login, disable), the two credential
  providers and the `jwt`/`session` callbacks of `src/lib/auth.ts`, and the
  change-password route (`src/app/api/user/password/route.ts`).
- **Routing rules**: the admin-area middleware (redirect or pass-through, plus
  `X-Robots-Tag`) and the sidebar's active-item test.
- **The security log analyser** (`scripts/analyze-logs.ts`):
  - parsing of the `JSON + "\n\n"` log format the security logger writes;
  - the count, filter and threshold reports.
- **The Services, Projects and Blog admin screens:**
  - `generateSlug` and `handleTitleChange`;
  - the one-entry-per-line text areas;
  - the save/toggle/delete list updates;
  - the blog's `publishedAt` rule and `formatDate`.

How things are represented:

- The `User` table is a sequence of rows (`Accounts.Table`). A `findUnique` on a
  unique column is a search for the matching row, and an `update` rewrites that row.
- Each route handler is a function that takes the request and the table. It
  returns the JSON response together with the table the handler leaves behind.
- The libraries the core calls but does not implement are fields of the
  `Oracles.Platform` and `Oracles.Bcrypt` datatypes: SHA-256, AES-256-CBC,
  otplib, `qrcode`, base64 decoding, `NEXTAUTH_SECRET` and bcryptjs. A proof
  that needs one of their properties assumes it explicitly, as a predicate
  (`SoundCipher`: decryption undoes encryption; `SoundBcrypt`: a hash matches
  its password).
- Parameters stand in for the clock, `crypto.randomBytes`, the outcome of
  each `fetch` and the parsed log file.

Code that updates state in place is imperative Dafny:

- The rate limiter is a class over a `map`.
- `generateBackupCodes`, `parseLogFile`, the `countBy*` reducers and
  `getSuspiciousIPs` are methods with loops.
- The `jwt` and `session` callbacks assign fields of `Token` and `Session` objects.
- Each admin screen is a class whose fields are its React state.

Every method's postcondition ties its result or new state to a pure
function, and the properties are proved about those functions.

The model follows the code in these places, where the behaviour is easy to
mistake for something else:

- Disabling two-factor sign-in with a backup code leaves the other backup
  codes stored (`src/app/api/2fa/disable/route.ts:81`). Disabling with a TOTP
  code clears them.
- The `credentials-2fa` provider signs in any user whose id it is given. It
  checks neither a password nor a second factor (`src/lib/auth.ts:72-90`).
- The verify route stores whatever string the client sent as the secret
  (`src/app/api/2fa/verify/route.ts:68`).
  - The admin screen sends the plaintext secret there.
  - A stored secret without a `:` then makes every later login and disable
    answer 500.
  - The lemma `TwoFactorLifecycle.PlaintextSecretLocksOut` states this.
- A stored secret that cannot be decrypted makes disable answer 500, not
  `400 invalid_code`.

## Model

| member | source | states |
|---|---|---|
| `RateLimit.ClientIp` | src/lib/rateLimit.ts:8-21 | the trimmed first comma-separated hop of a non-empty `x-forwarded-for`, else a non-empty `x-real-ip`, else `unknown` |
| `RateLimit.ClientIpFirstHop` | src/lib/rateLimit.ts:12-14 | a forwarded header `first,rest` yields exactly `trim(first)`, whatever follows and whatever `x-real-ip` says |
| `RateLimit.Key` | src/lib/rateLimit.ts:28 | the store key is the limiter type's name, a `:`, then the client IP (its injectivity is `KeysIndependent`) |
| `RateLimit.LimitOfKey` | src/lib/rateLimit.ts:24-28 | the limit applied to a `type:ip` key is that type's maximum (10 for `auth`, 100 for `api`) |
| `RateLimit.KeysIndependent` | src/lib/rateLimit.ts:28 | keys of different types or IPs never collide, so the `api` and `auth` counters of one IP are separate |
| `RateLimit.RetryAfter` | src/lib/rateLimit.ts:39 | the value is the ceiling of `(resetTime - now) / 1000` |
| `RateLimit.RetryAfterBounds` | src/lib/rateLimit.ts:39 | for a live window `Retry-After` lies between 0 and 60 seconds |
| `RateLimit.Step` | src/lib/rateLimit.ts:31-55 | the request is allowed iff there is no record, or the window is past (`now > resetTime`), or the count is below the limit. A denial leaves the store unchanged and reports 429 with `Retry-After`, the limit, remaining 0 and the reset time. No other key's record changes |
| `RateLimit.StepWindowBoundary` | src/lib/rateLimit.ts:33-36 | a missing or past window restarts as `{count: 1, resetTime: now + 60000}`. At `now == resetTime` the old window still applies and the request is counted in it |
| `RateLimit.StepKeepsCountBound` | src/lib/rateLimit.ts:38-54 | no stored count ever exceeds its key's limit |
| `RateLimit.Sweep` | src/lib/rateLimit.ts:59-66 | exactly the entries with `now > resetTime` are deleted; the others are kept unchanged |
| `RateLimit.SweepIsTransparent` | src/lib/rateLimit.ts:59-66 | sweeping at any earlier or equal instant never changes a later decision or the record it leaves |
| `RateLimit.RunInsideWindow` | src/lib/rateLimit.ts:38-55 | inside a live window with count `c`, the i-th later request is allowed iff `c + i` is below the limit, and all share the window's reset time |
| `RateLimit.WindowBudget` | src/lib/rateLimit.ts:31-55 | a fresh window admits exactly the first `maxRequests` requests made within 60 seconds of its start |
| `RateLimit.AuthEleventhRequestDenied` | src/lib/rateLimit.ts:24 | with the `auth` limit, requests 1 to 10 in a window are allowed and the 11th is a 429 with limit 10, remaining 0 and a `Retry-After` from 0 to 60 |
| `RateLimit.RateLimiter.constructor` | src/lib/rateLimit.ts:6 | the store starts empty |
| `RateLimit.RateLimiter.Check` | src/lib/rateLimit.ts:26-56 | the decision and the new store are those of `Step` for the client's IP, and the count bound is kept |
| `RateLimit.RateLimiter.Cleanup` | src/lib/rateLimit.ts:59-66 | the loop leaves the store equal to `Sweep` of the old store |
| `Totp.HexEncode` | src/lib/totp.ts:82 | two lower-case hex digits per byte |
| `Totp.HexDecode` | src/lib/totp.ts:93 | Node's lenient hex decoding reads at most one byte per two characters |
| `Totp.HexRoundTrip` | src/lib/totp.ts:82-93 | decoding the hex encoding of bytes gives them back |
| `Totp.EncryptionKey` | src/lib/totp.ts:70 | the explicit key if non-empty, else a non-empty `NEXTAUTH_SECRET`, else `default-key`. Never empty |
| `Totp.DeriveKey` | src/lib/totp.ts:72-76 | the AES key is the first 32 bytes of the SHA-256 digest of the key text |
| `Totp.EncryptSecret` | src/lib/totp.ts:69-83 | the result is 32 hex digits of the IV, a `:`, then hex digits, and its first field decodes back to the IV |
| `Totp.FirstField` | src/lib/totp.ts:87 | the text before the first `:`, the first element of `split(':')` |
| `Totp.SecondField` | src/lib/totp.ts:87 | the second element of `split(':')`, read as the empty (falsy) string when there is none |
| `Totp.DecryptSecret` | src/lib/totp.ts:85-105 | the format error iff the text before or after the first `:` is empty or absent, in particular whenever there is no `:`. Then the IV-length error iff the first field does not decode to 16 bytes, then the odd-length error iff the second field has an odd number of digits. Otherwise the text is well formed, and the result is `Ok` of the cipher's decryption of both decoded fields under the derived key when the cipher returns one, and the decryption error exactly when the cipher refuses |
| `Totp.OddCiphertextRefused` | src/lib/totp.ts:101 | a stored text with a valid IV and an odd-length ciphertext field is refused, whatever the cipher would return |
| `Totp.EncryptedFields` | src/lib/totp.ts:82 | splitting an encrypted secret on `:` gives exactly the IV's hex and the ciphertext's hex |
| `Totp.DecryptEncrypt` | src/lib/totp.ts:69-105 | under a sound cipher, decrypting with a key that falls back to the same value returns the secret |
| `Totp.FreshIvFreshCiphertext` | src/lib/totp.ts:71-82 | two different IVs give two different encrypted strings for the same secret |
| `Totp.VerifyTotp` | src/lib/totp.ts:13-20 | true iff the library returns `valid === true`; a throw gives false |
| `Totp.QrCodeDataUrl` | src/lib/totp.ts:22-32 | the QR image of the otpauth URI built from the secret, the issuer `Nedcloud Solutions` and the e-mail as label |
| `Totp.CodeOf` | src/lib/totp.ts:37 | a backup code is 8 characters from `0-9A-F` |
| `Totp.BackupCodes` | src/lib/totp.ts:34-41 | `n` codes (none for `n <= 0`), the i-th made from the i-th draw of 4 random bytes |
| `Totp.GenerateBackupCodes` | src/lib/totp.ts:34-41 | the loop returns `BackupCodes(n)`: exactly `n` codes of 8 upper-case hex digits |
| `Totp.HashBackupCodes` | src/lib/totp.ts:43-45 | same length and order, with each element the SHA-256 hex of the code at that position |
| `Totp.IndexOf` | src/lib/totp.ts:56 | -1 iff absent; otherwise the first position of the element |
| `Totp.VerifyBackupCode` | src/lib/totp.ts:47-67 | valid iff the hash of the upper-cased input is stored. If not, the list is returned unchanged. On a match, exactly the first matching entry is removed: one fewer, the others in order, and the same multiset minus that hash |
| `Totp.BackupCodeSingleUse` | src/lib/totp.ts:56-66 | with distinct stored hashes, a code just consumed is rejected by the list returned |
| `Totp.OtherBackupCodesStayValid` | src/lib/totp.ts:61-64 | consuming one code leaves every other stored code usable |
| `Totp.BackupCodeCaseInsensitive` | src/lib/totp.ts:51-54 | lower-, upper- and mixed-case spellings of a code give the same result |
| `Totp.IssuedCodesAccepted` | src/lib/totp.ts:37-56 | every generated code is accepted against the hashed list |
| `SecondFactor.StoredTotp` | src/app/api/2fa/login/route.ts:38-39 | decryption of the stored secret fails iff the check errs; the check succeeds iff the secret decrypts and otplib accepts the token for it |
| `TwoFactorLogin.Candidate` | src/app/api/2fa/login/route.ts:11-36 | a row is a candidate only for a body with an e-mail and a token, matching that e-mail, with 2FA enabled and a secret |
| `TwoFactorLogin.Login` | src/app/api/2fa/login/route.ts:6-87 | 400 "Email and token are required" iff the body lacks an e-mail or a token. 400 "2FA is not enabled for this user" iff both are present but no row with that address has 2FA on and a secret. 500 "Failed to verify 2FA" iff the body is unreadable or the secret fails to decrypt. `valid: true` with the user's `{id, email, name, role}` iff the TOTP code passes, or it fails and a stored backup code matches. The table changes only when that backup code is consumed, and then only the code list of that row |
| `TwoFactorVerify.SecretToCheck` | src/app/api/2fa/verify/route.ts:45-52 | a non-empty second `:` field means the token is checked against `decryptSecret(encryptedSecret)`; otherwise against the base64 decoding, unless that contains `:`, which ends in the format error |
| `TwoFactorVerify.Candidate` | src/app/api/2fa/verify/route.ts:14-43 | a row is a candidate only for a session, a token and a secret, the session's own row, with 2FA not yet enabled |
| `TwoFactorVerify.Verify` | src/app/api/2fa/verify/route.ts:11-85 | 401 iff there is no session. 400 "Token and secret are required" iff a field is missing. 404 "User not found" iff the session's row is absent. 400 "2FA is already enabled" iff that row has it on. 400 "Invalid verification code" iff a candidate's secret to check is readable and the token fails. 500 iff the body is unreadable or the secret to check errs. 200 iff a candidate exists and the token verifies. On 200, one row update sets enabled, the client's string as secret, the hashes of the 8 returned codes and `verifiedAt`. Otherwise nothing is written |
| `TwoFactorVerify.Enroll` | src/app/api/2fa/verify/route.ts:64-72 | the enrolled row: 2FA on, the submitted text as secret, the new code digests, and the instant of the request |
| `TwoFactorDisable.Candidate` | src/app/api/2fa/disable/route.ts:9-38 | a row is a candidate only for a session and a token, the session's own row, with 2FA enabled |
| `TwoFactorDisable.Disable` | src/app/api/2fa/disable/route.ts:6-94 | 401 iff there is no session. 400 "Verification code is required" iff the token is missing. 400 "2FA is not enabled" iff the row is absent or has 2FA off. 400 "Invalid verification code" iff the TOTP code fails and no backup code matches, an empty list included. 500 iff the body is unreadable or the stored secret does not decrypt. 200 iff a TOTP code, or else a backup code, is accepted. A TOTP code clears every 2FA field including all codes. A backup code clears the rest but stores the remaining codes, one fewer. Nothing is written unless 200 |
| `TwoFactorDisable.Cleared` | src/app/api/2fa/disable/route.ts:75-83 | the disabled row: 2FA off, no secret, no verification time, and the given code digests (none after a TOTP code, the remaining ones after a backup code) |
| `TwoFactorSetup.Setup` | src/app/api/2fa/setup/route.ts:6-46 | never writes the table. 401 iff there is no session. 404 "User not found" iff the session's row is absent. 400 "…Disable it first to set up again." iff it has 2FA on. 500 iff the QR code does not render. 200 iff the row exists, 2FA is off and the QR code renders. The response carries the fresh secret, `encryptSecret(secret)` and the QR code of the otpauth URI for the row's e-mail |
| `TwoFactorLifecycle.SetupThenVerifyEnrols` | src/app/api/2fa/verify/route.ts:45-72 | posting setup's `encryptedSecret` with a valid token to verify enrols the row with a secret that decrypts to the one set up |
| `TwoFactorLifecycle.EnrolledRowIsFound` | src/app/api/2fa/verify/route.ts:64-72 | after enrolment the row is the one later login and disable requests for that user act on |
| `TwoFactorLifecycle.LoginByBackupCode` | src/app/api/2fa/login/route.ts:53-79 | when the TOTP check fails, a matching backup code signs in and removes just that code; a non-matching one answers `valid: false` and writes nothing |
| `TwoFactorLifecycle.IssuedBackupCodeWorksOnce` | src/app/api/2fa/login/route.ts:57-79 | a code returned by verify signs in once and is refused the second time |
| `TwoFactorLifecycle.PlaintextSecretLocksOut` | src/app/api/2fa/verify/route.ts:68 | storing a secret without `:` makes every later login and disable answer 500 |
| `TwoFactorLifecycle.ColonInDecodedSecretFails` | src/app/api/2fa/verify/route.ts:49-50 | a secret whose base64 decoding contains `:` but which has no second field always answers 500 |
| `TwoFactorLifecycle.OnlyVerifyEnables` | src/app/api/2fa/verify/route.ts:67 | login, disable and setup never switch two-factor sign-in on for any row |
| `Accounts.FindUnique` | src/lib/auth.ts:36-38 | for the `id` or the `email` column: -1 iff no row holds the value, else a row holding it, and the only one when keys are unique |
| `Accounts.Rewrite` | src/app/api/user/password/route.ts:41-44 | an update by id changes that row alone, keeps keys unique and keeps 2FA rows with a secret |
| `Auth.PasswordMatch` | src/lib/auth.ts:32-51 | a row matches only for a non-empty e-mail and password, at that address, with a stored hash that bcrypt accepts; with unique addresses, no match means no such row |
| `Auth.AuthorizePassword` | src/lib/auth.ts:31-63 | null iff no match (missing fields, unknown user, no hash and wrong password alike). `2FA_REQUIRED` iff the match has 2FA enabled. Otherwise exactly `{id, email, name, role}` |
| `Auth.PasswordAloneNeverSuffices` | src/lib/auth.ts:53-55 | a password never signs in an account with 2FA enabled |
| `Auth.AuthorizeSecondFactor` | src/lib/auth.ts:72-91 | a user iff a non-empty `userId` names an existing row, and that row's public fields |
| `Auth.SecondFactorProviderTrustsCaller` | src/lib/auth.ts:72-91 | any existing user id alone yields a sign-in, with no password or code |
| `Auth.JwtCallback` | src/lib/auth.ts:95-101 | copies `id` and `role` into the token when a user is given, and otherwise leaves it as it was |
| `Auth.SessionCallback` | src/lib/auth.ts:102-108 | copies `id` and `role` from the token into `session.user` when present, keeping its other fields |
| `ChangePassword.ValidBody` | src/lib/validations.ts:67-70 | both passwords are strings of at least 8 characters, and the new one has at most 100 |
| `ChangePassword.Candidate` | src/app/api/user/password/route.ts:11-32 | a row is a candidate only for a session address, a valid body, at that address and with a password hash |
| `ChangePassword.ChangePassword` | src/app/api/user/password/route.ts:8-50 | 401 iff there is no session address. 500 iff the body is not JSON. 400 "Validation failed" iff the lengths are wrong (current ≥ 8, 8 ≤ new ≤ 100). 404 "User not found" iff no row has the address or it has no hash. 400 "Current password is incorrect" iff bcrypt rejects the current password. 200 iff it matches. Only then is the row's password replaced, by `hash(new, 12)`, and nothing else changes |
| `ChangePassword.NewPasswordAccepted` | src/app/api/user/password/route.ts:39-44 | after a change, signing in with the new password is no longer rejected |
| `Middleware.Handle` | src/middleware.ts:4-28 | `/admin/login` always passes with no header. Redirect iff an admin path, logged out and not the login page, and always to `/admin/login`. `X-Robots-Tag: noindex, nofollow` iff an admin path other than the login page |
| `Middleware.Matched` | src/middleware.ts:30-32 | the matcher `/admin/:path*`: `/admin` itself or any path below `/admin/` |
| `Middleware.MatchedIsAdminRoute` | src/middleware.ts:30-32 | every path the matcher selects starts with `/admin` |
| `Middleware.NoRedirectLoop` | src/middleware.ts:9-19 | a redirect's target always passes, so the logged-in-on-login-page redirect is unreachable |
| `Middleware.MatchedPagesAreGuarded` | src/middleware.ts:13-25 | an admin page other than login is served with the header when logged in and redirected when not |
| `Sidebar.IsActive` | src/components/admin/AdminSidebar.tsx:45-46 | the dashboard is active only on its own path; any other item also on every path its link prefixes |
| `Sidebar.NoNestedLinks` | src/components/admin/AdminSidebar.tsx:19-28 | no link other than the dashboard's is a prefix of another |
| `Sidebar.AtMostOneActive` | src/components/admin/AdminSidebar.tsx:44-46 | at most one item is active for any pathname |
| `Sidebar.DashboardExact` | src/components/admin/AdminSidebar.tsx:45-46 | the dashboard is active iff the pathname is exactly `/admin` |
| `Sidebar.PrefixNotSegment` | src/components/admin/AdminSidebar.tsx:46 | `/admin/blogging` activates Blog: the test ignores path segments |
| `AnalyzeLogs.Blocks` | scripts/analyze-logs.ts:28 | the pieces between `\n\n` separators that are not blank after `trim()` |
| `AnalyzeLogs.ParsedEvents` | scripts/analyze-logs.ts:30-37 | parsing keeps at most one event per block |
| `AnalyzeLogs.ParsedEventsAppend` | scripts/analyze-logs.ts:30-37 | a further block adds its event at the end if it parses and adds nothing if not |
| `AnalyzeLogs.ParseLogFile` | scripts/analyze-logs.ts:19-40 | a missing file gives no events; otherwise the loop returns the parsed non-blank `\n\n` blocks in order |
| `AnalyzeLogs.SplitOnFramed` | scripts/analyze-logs.ts:28 | splitting a block without a blank line followed by `\n\n` cuts exactly there |
| `AnalyzeLogs.LogText` | src/lib/security-logger.ts:29-30 | the log file's text after the events were appended: each event's `JSON.stringify` followed by `\n\n`, in order (the text `LogRoundTrip` reads back) |
| `AnalyzeLogs.Serialised` | src/lib/security-logger.ts:29 | one serialised block per event, in order |
| `AnalyzeLogs.SplitLogText` | src/lib/security-logger.ts:29 | the logger's output splits back into one block per event plus a final empty piece |
| `AnalyzeLogs.FilterSerialised` | scripts/analyze-logs.ts:28 | non-blank blocks all survive the blank-block filter |
| `AnalyzeLogs.ParseSerialised` | scripts/analyze-logs.ts:30-37 | when parsing undoes serialising, the blocks parse back to the events |
| `AnalyzeLogs.LogRoundTrip` | scripts/analyze-logs.ts:19-40 | reading back what the logger appended gives exactly the events logged, in order |
| `AnalyzeLogs.CountBy` | scripts/analyze-logs.ts:42-54 | the loop returns one entry per key that occurs, except `__proto__`, which never gets one. A key naming an inherited method of `Object.prototype` holds that method's source text followed by one `1` per event; every other key holds its number of events |
| `AnalyzeLogs.CountsAddUp` | scripts/analyze-logs.ts:42-47 | the counts over all keys sum to the number of events |
| `AnalyzeLogs.CountByType` | scripts/analyze-logs.ts:42-47 | each type that occurs, `__proto__` aside, maps to its tally: the number of events of that type, or text for an inherited method name |
| `AnalyzeLogs.CountBySeverity` | scripts/analyze-logs.ts:49-54 | each severity that occurs maps to the number of its events as a number, and only severities that occur appear |
| `AnalyzeLogs.SeverityNotInherited` | scripts/analyze-logs.ts:49-54 | no severity name is a member of `Object.prototype`, so severity counts are always numbers |
| `AnalyzeLogs.SeverityCountsAddUp` | scripts/analyze-logs.ts:112-113 | the four severities' counts sum to the number of events |
| `AnalyzeLogs.CountOrZero` | scripts/analyze-logs.ts:113 | `bySeverity[severity] || 0`: the entry, or the number 0 when there is none |
| `AnalyzeLogs.CountOrZeroIsOccurrences` | scripts/analyze-logs.ts:113 | a severity missing from the counts prints as 0, which is its number of events |
| `AnalyzeLogs.FailedLogins` | scripts/analyze-logs.ts:56-61 | exactly the failed-login events, as many as there are; a one-event log gives that event iff it is a failed login |
| `AnalyzeLogs.FailedLoginsConcat` | scripts/analyze-logs.ts:56-61 | the failed logins of `a + b` are those of `a` followed by those of `b`: with the one-event case, an order-preserving filter |
| `AnalyzeLogs.HighSeverityEvents` | scripts/analyze-logs.ts:63-65 | exactly the HIGH and CRITICAL events, as many as there are; a one-event log gives that event iff it is HIGH or CRITICAL |
| `AnalyzeLogs.HighSeverityConcat` | scripts/analyze-logs.ts:63-65 | the HIGH and CRITICAL events of `a + b` are those of `a` followed by those of `b` |
| `AnalyzeLogs.LoginAttemptNeedsFailedStatus` | scripts/analyze-logs.ts:59 | `&&` binds tighter: `LOGIN_ATTEMPT` counts only with status `FAILED`, `LOGIN_FAILURE` always |
| `AnalyzeLogs.IsFailedLogin` | scripts/analyze-logs.ts:57-60 | the `getFailedLogins` test: type `FAILED_LOGIN` or `LOGIN_FAILURE`, or `LOGIN_ATTEMPT` with status `FAILED` |
| `AnalyzeLogs.IsHighSeverity` | scripts/analyze-logs.ts:64 | the `getHighSeverityEvents` test: severity `HIGH` or `CRITICAL` |
| `AnalyzeLogs.IsSuspicious` | scripts/analyze-logs.ts:69-74 | a type containing `FAILED` or `ERROR`, or a HIGH or CRITICAL severity |
| `AnalyzeLogs.OccurrencesOfFilter` | scripts/analyze-logs.ts:69-78 | counting IPs over the suspicious events gives each IP's number of suspicious events |
| `AnalyzeLogs.SuspiciousIps` | scripts/analyze-logs.ts:67-83 | exactly the IPs with at least `threshold`, and at least one, suspicious events, each with that count, except IPs named like a member of `Object.prototype`, which are never reported |
| `AnalyzeLogs.ReportedSuspiciousIps` | scripts/analyze-logs.ts:135 | the report's call with the default threshold 5: exactly the IPs, prototype names aside, with five or more suspicious events, each with its count |
| `AnalyzeLogs.RecentFailedLogins` | scripts/analyze-logs.ts:118-125 | the report lists the last min(10, n) of the n failed logins, all failed logins; once the newer part of the log holds ten, nothing older shows |
| `AnalyzeLogs.RecentHighSeverity` | scripts/analyze-logs.ts:127-133 | the same for the last min(10, n) HIGH and CRITICAL events |
| `ContentForms.CollapseRuns` | src/components/admin/ServicesManager.tsx:55 | runs outside `[a-z0-9]` become single hyphens: only `a-z`, `0-9`, `-`, never `--`, and a leading hyphen iff the text starts outside the alphabet |
| `ContentForms.CollapseKeepsAlphanumerics` | src/components/admin/ServicesManager.tsx:55 | collapsing keeps exactly the letters and digits, in order |
| `ContentForms.CollapseRunsConcat` | src/components/admin/ServicesManager.tsx:55 | collapsing works piece by piece when no run of other characters spans the seam |
| `ContentForms.CollapseRunOfSeparators` | src/components/admin/ServicesManager.tsx:55 | a whole run of other characters becomes exactly one hyphen |
| `ContentForms.StripEdges` | src/components/admin/ServicesManager.tsx:56 | one hyphen off the start and one off the end |
| `ContentForms.StripEdgesKeepsAlphanumerics` | src/components/admin/ServicesManager.tsx:56 | stripping the edges keeps the letters and digits |
| `ContentForms.GenerateSlug` | src/components/admin/ServicesManager.tsx:52-57 | only `a-z`, `0-9` and `-`, no `--`, no hyphen at either end, and a non-empty slug matches `^[a-z0-9-]+$` |
| `ContentForms.GenerateSlugKeepsAlphanumerics` | src/components/admin/ServicesManager.tsx:52-57 | the slug holds exactly the lower-cased title's letters and digits, in order |
| `ContentForms.GenerateSlugOfTwoWords` | src/components/admin/ServicesManager.tsx:52-57 | two words of `[a-z0-9]` separated by any run of other characters give `word-word` |
| `ContentForms.GenerateSlugIdempotent` | src/components/admin/ProjectsManager.tsx:56-61 | a slug is its own slug |
| `ContentForms.SlugAfterTitleChange` | src/components/admin/ServicesManager.tsx:59-67 | a non-empty slug is kept; an empty one is generated from the new title |
| `ContentForms.Lines` | src/components/admin/ServicesManager.tsx:275 | exactly the non-blank pieces of the `\n` split, none containing a newline |
| `ContentForms.LinesConcat` | src/components/admin/ServicesManager.tsx:275 | the lines are read in order: the first line is kept unless blank, then come the lines of the rest |
| `ContentForms.LinesOfJoin` | src/components/admin/ServicesManager.tsx:272-275 | reading back the text area that shows `list.join('\n')` gives the list unchanged |
| `ContentForms.MapWhereId` | src/components/admin/ProjectsManager.tsx:116 | same length; entries with the id are transformed, all others are unchanged |
| `ContentForms.RemoveId` | src/components/admin/ProjectsManager.tsx:140 | exactly the entries without the id remain |
| `ContentForms.RemoveIdConcat` | src/components/admin/BlogManager.tsx:153 | removal keeps the remaining entries in their order |
| `ContentForms.RemoveMissingId` | src/components/admin/ServicesManager.tsx:123 | removing an id nobody has changes nothing |
| `ContentForms.Preview` | src/components/admin/ProjectsManager.tsx:177-186 | the first three entries, and a `+n` badge iff there are more, with `n` the rest |
| `ContentForms.SaveRequest` | src/components/admin/ServicesManager.tsx:70-85 | none without a title and a slug. Otherwise a PUT to the entry's path iff the draft has a truthy id, else a POST to the collection, with the draft as body |
| `Services.Manager.constructor` | src/components/admin/ServicesManager.tsx:32-35 | starts with the initial services and the modal closed |
| `Services.Manager.OpenAdd` | src/components/admin/ServicesManager.tsx:37-40 | opens the modal on `emptyService` |
| `Services.Manager.OpenEdit` | src/components/admin/ServicesManager.tsx:42-45 | opens the modal on the chosen service |
| `Services.Manager.Close` | src/components/admin/ServicesManager.tsx:47-50 | closes the modal and drops the draft |
| `Services.Manager.TitleChange` | src/components/admin/ServicesManager.tsx:59-67 | sets the title and the slug by `SlugAfterTitleChange`; without a draft nothing changes |
| `Services.Manager.SlugChange` | src/components/admin/ServicesManager.tsx:227 | sets only the draft's slug |
| `Services.Manager.FeaturesChange` | src/components/admin/ServicesManager.tsx:273-276 | sets the draft's features to `Lines` of the text |
| `Services.Manager.Save` | src/components/admin/ServicesManager.tsx:69-103 | sends `SaveRequest`. Only on a successful reply: an edit replaces the entries with the saved id, a create appends, and the modal closes. Otherwise nothing changes, in particular without a title or a slug |
| `Services.Manager.TogglePublished` | src/components/admin/ServicesManager.tsx:105-116 | once the call resolves, only the flag of the entries with the id changes |
| `Services.Manager.Delete` | src/components/admin/ServicesManager.tsx:118-127 | once confirmed and resolved, exactly the entries with the id are removed |
| `Projects.Manager.constructor` | src/components/admin/ProjectsManager.tsx:36-39 | starts with the initial projects and the modal closed |
| `Projects.Manager.OpenAdd` | src/components/admin/ProjectsManager.tsx:41-44 | opens the modal on `emptyProject` |
| `Projects.Manager.OpenEdit` | src/components/admin/ProjectsManager.tsx:46-49 | opens the modal on the chosen project |
| `Projects.Manager.Close` | src/components/admin/ProjectsManager.tsx:51-54 | closes the modal and drops the draft |
| `Projects.Manager.TitleChange` | src/components/admin/ProjectsManager.tsx:63-71 | sets the title and the slug by `SlugAfterTitleChange`; without a draft nothing changes |
| `Projects.Manager.SlugChange` | src/components/admin/ProjectsManager.tsx:269 | sets only the draft's slug |
| `Projects.Manager.TechnologiesChange` | src/components/admin/ProjectsManager.tsx:306-309 | sets the draft's technologies to `Lines` of the text |
| `Projects.Manager.Save` | src/components/admin/ProjectsManager.tsx:73-107 | sends `SaveRequest`. Only on a successful reply: an edit replaces the entries with the saved id, a create appends, and the modal closes. Otherwise nothing changes |
| `Projects.Manager.TogglePublished` | src/components/admin/ProjectsManager.tsx:109-120 | once the call resolves, only the `published` flag of the entries with the id changes |
| `Projects.Manager.ToggleFeatured` | src/components/admin/ProjectsManager.tsx:122-133 | once the call resolves, only the `featured` flag of the entries with the id changes |
| `Projects.Manager.Delete` | src/components/admin/ProjectsManager.tsx:135-144 | once confirmed and resolved, exactly the entries with the id are removed |
| `Blog.Payload` | src/components/admin/BlogManager.tsx:86-89 | the draft sent has `publishedAt` iff it is published, set to now; its other fields are the draft's |
| `Blog.Change` | src/components/admin/BlogManager.tsx:120-123 | the toggle's request carries `publishedAt` iff it publishes, set to now |
| `Blog.Publish` | src/components/admin/BlogManager.tsx:125-129 | the listed post gets the flag and a date iff published; nothing else changes |
| `Blog.FormatDate` | src/components/admin/BlogManager.tsx:159-166 | an undated post reads `Not published`; a date is rendered by the locale formatter |
| `Blog.TogglePublishedKeepsDated` | src/components/admin/BlogManager.tsx:115-133 | toggling keeps every post dated iff published and makes the listed posts agree with the request sent |
| `Blog.ResavingRedatesPost` | src/components/admin/BlogManager.tsx:86-89 | re-saving an already published post sends a new publication date |
| `Blog.Manager.constructor` | src/components/admin/BlogManager.tsx:34-37 | starts with the initial posts and the modal closed |
| `Blog.Manager.OpenAdd` | src/components/admin/BlogManager.tsx:39-42 | opens the modal on `emptyPost` |
| `Blog.Manager.OpenEdit` | src/components/admin/BlogManager.tsx:44-50 | opens the modal on the chosen post, with the same publication instant |
| `Blog.Manager.Close` | src/components/admin/BlogManager.tsx:52-55 | closes the modal and drops the draft |
| `Blog.Manager.TitleChange` | src/components/admin/BlogManager.tsx:64-72 | sets the title and the slug by `SlugAfterTitleChange`; without a draft nothing changes |
| `Blog.Manager.SlugChange` | src/components/admin/BlogManager.tsx:295 | sets only the draft's slug |
| `Blog.Manager.TagsChange` | src/components/admin/BlogManager.tsx:332-335 | sets the draft's tags to `Lines` of the text |
| `Blog.Manager.Save` | src/components/admin/BlogManager.tsx:74-113 | sends `SaveRequest` with the `Payload`. Only on a successful reply: an edit replaces the entries with the saved id, a create appends, and the modal closes |
| `Blog.Manager.TogglePublished` | src/components/admin/BlogManager.tsx:115-133 | returns the `Change` sent, and once the call resolves applies `Publish` to the entries with the id |
| `Blog.Manager.ToggleFeatured` | src/components/admin/BlogManager.tsx:135-146 | once the call resolves, only the `featured` flag of the entries with the id changes |
| `Blog.Manager.Delete` | src/components/admin/BlogManager.tsx:148-157 | once confirmed and resolved, exactly the entries with the id are removed |

## Left out

- Cryptographic and library internals are uninterpreted fields of
  `Oracles.Platform` and `Oracles.Bcrypt`:
  - SHA-256, AES-256-CBC, `crypto.randomBytes`;
  - otplib's RFC 6238 computation, the otpauth URI and QR encoding;
  - base64 decoding and bcryptjs.

  Only the properties stated as `SoundCipher` and `SoundBcrypt` are assumed,
  and only by the lemmas that name them.
- Prisma is a sequence of rows. The `select` projections, database errors
  and any connection failure other than an unreachable body are not modelled.
- Concurrency and atomicity are not modelled: parallel requests against the
  rate-limit map, and the backup-code read-then-write under parallel logins.
  Every operation is one atomic step.
- The `setInterval` timer that runs the sweep every minute
  (`src/lib/rateLimit.ts:68`) is not modelled; `Cleanup` can be called at any instant.
- Wall-clock time is a parameter `now` in milliseconds. The blog's two
  `new Date()` calls in `togglePublished` are taken as the same instant.
- `Math.ceil` over a floating-point division is computed by integer ceiling
  division, which agrees for the integral millisecond values involved.
- `toUpperCase` and `toLowerCase` map ASCII letters only. Unicode case
  mappings such as `ß` to `SS` are not modelled; backup codes are ASCII hex.
- The zod length checks count characters, not UTF-16 code units. The
  `details` list of a validation failure is not modelled.
- `request.json()`:
  - a body that is not JSON is `None`;
  - a field that is missing or not a string is `None`.
  The typing of other JSON values is not modelled.
- `JSON.parse` of a log block is the parameter `parse`, and `JSON.stringify`
  of an event is `stringify`. The events' `details` field is not modelled.
- ParseLogFile: `JSON.parse(block) as SecurityEvent` keeps any JSON value,
  but `parse` yields only well-formed events with one of the four
  severities. A block such as `null` (every report then throws on
  `e.type`), an object without `type` (counted under `undefined`, and
  `getSuspiciousIPs` throws) and other severity strings are not modelled.
- Console output is not modelled: `printReport`'s formatting, sorting and
  icons, and `formatTimestamp` (locale formatting). The report's severity
  defaults and last-10 truncation are modelled.
- Locale date formatting in the blog's `formatDate` is the parameter `localeDate`.
- The React components' JSX, `useState` plumbing, the `isSaving` flag, the
  `confirm` dialog (a parameter) and stale-closure effects are not modelled.
  Each handler runs on the current state.
- Plain field setters of the admin forms (description, content, icon,
  order, image, URL, excerpt, cover image, the flags' checkboxes) are not
  modelled; they copy one input value into the draft.
- `getClientIp`'s header reads become a `RequestHeaders` value.
- `NextResponse` objects become `Response`/`Decision` values.
- `generateTOTPSecret` is a parameter `secret` of the setup handler.
- The content CRUD routes, the zod schemas, DOMPurify and the UI-only pages
  are outside this model. The slug pattern of `src/lib/validations.ts:8` is
  used as a predicate.
- `AnalyzeLogs.ParsedEvents`: the count bound is the function's own contract.
  Its content is stated by `ParsedEventsAppend` and `ParseLogFile`.
