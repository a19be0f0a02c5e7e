/** The configuration constants of the core (src/lib/security.config.ts). */
module SecurityConfig {

  /** Length of one rate-limit window, in milliseconds. */
  const WindowMs: int := 60 * 1000

  /** Requests allowed per window on general API endpoints. */
  const ApiMaxRequests: int := 100

  /** Requests allowed per window on authentication endpoints. */
  const AuthMaxRequests: int := 10

  const PasswordMinLength: int := 8
  const PasswordMaxLength: int := 100

  /** bcrypt cost factor used when a password is (re)hashed. */
  const PasswordHashRounds: int := 12
}
