/**
 * The libraries the core calls but does not implement: Node's `crypto`
 * (SHA-256, AES-256-CBC), otplib (RFC 6238 verification, otpauth URIs),
 * the `qrcode` package, base64 decoding and the `NEXTAUTH_SECRET`
 * environment variable. Each is a field of `Platform`; a proof that needs a
 * property of one states it as a predicate over the field.
 */
module Oracles {
  import opened Common

  /** What `otp.verifySync({token, secret})` does: throw, or return a result whose `valid` flag is read. */
  datatype OtpCall = Threw | Returned(valid: bool)

  /** One draw of `crypto.randomBytes(4)`. */
  datatype Word = Word(b0: bv8, b1: bv8, b2: bv8, b3: bv8)

  datatype Platform = Platform(
    /** `createHash('sha256').update(s).digest('hex')` */
    sha256Hex: string -> string,
    /** `createHash('sha256').update(s).digest()` */
    sha256: string -> seq<bv8>,
    /** AES-256-CBC encryption of the UTF-8 text under `(key, iv)`, `update` and `final` together */
    aesEncrypt: (seq<bv8>, seq<bv8>, string) -> seq<bv8>,
    /** AES-256-CBC decryption to UTF-8; `None` when `final` throws (bad padding) */
    aesDecrypt: (seq<bv8>, seq<bv8>, seq<bv8>) -> Option<string>,
    /** otplib's check of `token` against `secret` at the current instant */
    otpVerify: (string, string) -> OtpCall,
    /** `otp.generateURI({secret, issuer, label})` */
    otpUri: (string, string, string) -> string,
    /** `QRCode.toDataURL(uri)`; `None` when the promise rejects */
    qrDataUrl: string -> Option<string>,
    /** `Buffer.from(s, 'base64').toString('utf8')` */
    base64Utf8: string -> string,
    /** `process.env.NEXTAUTH_SECRET` */
    nextAuthSecret: Option<string>)

  /** bcryptjs: `compare(plain, hash)` and `hash(plain, rounds)`. */
  datatype Bcrypt = Bcrypt(compare: (string, string) -> bool, hash: (string, int) -> string)

  /** A hash made from a password is a non-empty text that matches that password. */
  ghost predicate SoundBcrypt(b: Bcrypt)
  {
    forall plain, rounds :: b.compare(plain, b.hash(plain, rounds)) && b.hash(plain, rounds) != ""
  }

  /**
   * The only property of the block cipher the core depends on: with a 16-byte IV, decryption
   * under the same key undoes encryption, and CBC with padding never produces an empty ciphertext.
   */
  ghost predicate SoundCipher(p: Platform)
  {
    forall key, iv, text | |iv| == 16 ::
      p.aesDecrypt(key, iv, p.aesEncrypt(key, iv, text)) == Some(text) && |p.aesEncrypt(key, iv, text)| > 0
  }
}
