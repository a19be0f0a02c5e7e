/**
 * TOTP helpers, backup codes and the at-rest secret codec (src/lib/totp.ts).
 *
 * Hex encoding and Node's two hex decoders are modelled exactly: the lenient
 * `Buffer.from(s, 'hex')`, and `decipher.update(s, 'hex')`, which refuses a
 * text of odd length before decoding the rest leniently. The digests, the
 * cipher and otplib are the oracles of `Oracles.Platform`.
 */
module Totp {
  import opened Common
  import opened Oracles

  const AppName := "Nedcloud Solutions"
  const DefaultKey := "default-key"
  const InvalidFormatMessage := "Invalid encrypted secret format"

  // ---------------------------------------------------------------- hex

  predicate IsLowerHexChar(c: char)
  {
    '0' <= c <= '9' || 'a' <= c <= 'f'
  }

  predicate IsUpperHexChar(c: char)
  {
    '0' <= c <= '9' || 'A' <= c <= 'F'
  }

  /** A character Node accepts as a hex digit, in either case. */
  predicate IsHexChar(c: char)
  {
    IsLowerHexChar(c) || 'A' <= c <= 'F'
  }

  function HexValue(c: char): (v: nat)
    requires IsHexChar(c)
    ensures v < 16
  {
    if '0' <= c <= '9' then c as int - '0' as int
    else if 'a' <= c <= 'f' then c as int - 'a' as int + 10
    else c as int - 'A' as int + 10
  }

  function Nibble(n: nat): (c: char)
    requires n < 16
    ensures IsLowerHexChar(c) && IsHexChar(c) && HexValue(c) == n
  {
    if n < 10 then ('0' as int + n) as char else ('a' as int + n - 10) as char
  }

  /** `Buffer.toString('hex')`: two lower-case digits per byte. */
  function HexEncode(bytes: seq<bv8>): (s: string)
    ensures |s| == 2 * |bytes|
    ensures forall i | 0 <= i < |s| :: IsLowerHexChar(s[i])
  {
    if bytes == [] then ""
    else [Nibble(bytes[0] as int / 16), Nibble(bytes[0] as int % 16)] + HexEncode(bytes[1..])
  }

  /** `Buffer.from(s, 'hex')`: decodes digit pairs up to the first pair that is not hex; an odd last digit is dropped. */
  function HexDecode(s: string): (bytes: seq<bv8>)
    ensures 2 * |bytes| <= |s|
  {
    if |s| >= 2 && IsHexChar(s[0]) && IsHexChar(s[1]) then
      [(HexValue(s[0]) * 16 + HexValue(s[1])) as bv8] + HexDecode(s[2..])
    else []
  }

  lemma {:induction false} HexRoundTrip(bytes: seq<bv8>)
    ensures HexDecode(HexEncode(bytes)) == bytes
  {
    if bytes != [] {
      var s := HexEncode(bytes);
      assert s[2..] == HexEncode(bytes[1..]);
      HexRoundTrip(bytes[1..]);
      var n := bytes[0] as int;
      assert HexValue(s[0]) * 16 + HexValue(s[1]) == n;
    }
  }

  // ------------------------------------------------------ secret codec

  datatype CryptoError = InvalidFormat | InvalidIvLength | OddHexLength | BadDecrypt

  /** `key || process.env.NEXTAUTH_SECRET || 'default-key'`, shared by both directions. */
  function EncryptionKey(key: Option<string>, env: Option<string>): (k: string)
    ensures k != ""
    ensures Truthy(key) ==> k == key.value
    ensures !Truthy(key) && Truthy(env) ==> k == env.value
    ensures !Truthy(key) && !Truthy(env) ==> k == DefaultKey
  {
    if Truthy(key) then key.value else if Truthy(env) then env.value else DefaultKey
  }

  /** The AES key: the SHA-256 digest of the key text, `slice(0, 32)`. */
  function DeriveKey(p: Platform, keyText: string): seq<bv8>
  {
    var d := p.sha256(keyText);
    if |d| <= 32 then d else d[..32]
  }

  /** `encryptSecret(secret, key)` with the 16 random IV bytes passed in. */
  function EncryptSecret(p: Platform, secret: string, key: Option<string>, iv: seq<bv8>): (r: string)
    requires |iv| == 16
    ensures |r| >= 33 && r[32] == ':'
    ensures forall i | 0 <= i < |r| && i != 32 :: IsLowerHexChar(r[i])
    ensures HexDecode(r[..32]) == iv
  {
    var cipherText := p.aesEncrypt(DeriveKey(p, EncryptionKey(key, p.nextAuthSecret)), iv, secret);
    HexRoundTrip(iv);
    var r := HexEncode(iv) + ":" + HexEncode(cipherText);
    assert r[..32] == HexEncode(iv);
    r
  }

  /** The text before the first `:` (`split(':')[0]`). */
  function FirstField(s: string): string
  {
    Split(s, ':')[0]
  }

  /** `split(':')[1]`, with an absent piece read as the empty (falsy) string. */
  function SecondField(s: string): string
  {
    var parts := Split(s, ':');
    if |parts| > 1 then parts[1] else ""
  }

  /**
   * `decryptSecret(text, key)`; a thrown error is `Err`. `createDecipheriv` refuses an IV that
   * is not 16 bytes, and `decipher.update(encrypted, 'hex', 'utf8')` throws on an odd number
   * of hex digits.
   */
  function DecryptSecret(p: Platform, text: string, key: Option<string>): (r: Result<string, CryptoError>)
    ensures r == Err(InvalidFormat) <==> FirstField(text) == "" || SecondField(text) == ""
    ensures ':' !in text ==> r == Err(InvalidFormat)
    ensures r == Err(InvalidIvLength) <==> FirstField(text) != "" && SecondField(text) != "" && |HexDecode(FirstField(text))| != 16
    ensures r == Err(OddHexLength) <==> (FirstField(text) != "" && SecondField(text) != ""
      && |HexDecode(FirstField(text))| == 16 && |SecondField(text)| % 2 == 1)
    // a well-formed text decrypts to exactly what the cipher returns, and fails iff the cipher refuses it
    ensures (FirstField(text) != "" && SecondField(text) != "" && |HexDecode(FirstField(text))| == 16
      && |SecondField(text)| % 2 == 0) ==>
      r == match p.aesDecrypt(DeriveKey(p, EncryptionKey(key, p.nextAuthSecret)), HexDecode(FirstField(text)),
        HexDecode(SecondField(text)))
        case None => Err(BadDecrypt)
        case Some(plain) => Ok(plain)
    ensures r.Ok? ==> p.aesDecrypt(DeriveKey(p, EncryptionKey(key, p.nextAuthSecret)), HexDecode(FirstField(text)),
      HexDecode(SecondField(text))) == Some(r.value)
  {
    var ivHex := FirstField(text);
    var encrypted := SecondField(text);
    if ivHex == "" || encrypted == "" then Err(InvalidFormat)
    else
      var iv := HexDecode(ivHex);
      if |iv| != 16 then Err(InvalidIvLength)
      else if |encrypted| % 2 == 1 then Err(OddHexLength)
      else
        match p.aesDecrypt(DeriveKey(p, EncryptionKey(key, p.nextAuthSecret)), iv, HexDecode(encrypted))
        case None => Err(BadDecrypt)
        case Some(plain) => Ok(plain)
  }

  /** A ciphertext field with an odd number of digits is refused, whatever the cipher would make of it. */
  lemma OddCiphertextRefused(p: Platform, key: Option<string>, iv: seq<bv8>, cipherHex: string)
    requires |iv| == 16 && cipherHex != [] && ':' !in cipherHex && |cipherHex| % 2 == 1
    ensures DecryptSecret(p, HexEncode(iv) + ":" + cipherHex, key) == Err(OddHexLength)
  {
    var ivHex := HexEncode(iv);
    assert ':' !in ivHex by {
      assert forall i | 0 <= i < |ivHex| :: ivHex[i] != ':';
    }
    SplitCons(ivHex, ':', cipherHex);
    SplitNoSeparator(cipherHex, ':');
    HexRoundTrip(iv);
  }

  /** The stored text splits at its one `:` into the hex IV and the hex ciphertext. */
  lemma {:induction false} EncryptedFields(p: Platform, secret: string, key: Option<string>, iv: seq<bv8>)
    requires |iv| == 16
    ensures Split(EncryptSecret(p, secret, key, iv), ':')
      == [HexEncode(iv), HexEncode(p.aesEncrypt(DeriveKey(p, EncryptionKey(key, p.nextAuthSecret)), iv, secret))]
  {
    var c := p.aesEncrypt(DeriveKey(p, EncryptionKey(key, p.nextAuthSecret)), iv, secret);
    var ivHex, cHex := HexEncode(iv), HexEncode(c);
    assert EncryptSecret(p, secret, key, iv) == ivHex + [':'] + cHex;
    assert ':' !in ivHex && ':' !in cHex by {
      assert forall i | 0 <= i < |ivHex| :: ivHex[i] != ':';
      assert forall i | 0 <= i < |cHex| :: cHex[i] != ':';
    }
    SplitCons(ivHex, ':', cHex);
    SplitNoSeparator(cHex, ':');
  }

  /**
   * Decryption undoes encryption whenever both sides resolve to the same key text
   * (in particular for the same `key` argument), for every IV.
   */
  lemma {:induction false} DecryptEncrypt(p: Platform, secret: string, encKey: Option<string>, decKey: Option<string>, iv: seq<bv8>)
    requires SoundCipher(p) && |iv| == 16
    requires EncryptionKey(encKey, p.nextAuthSecret) == EncryptionKey(decKey, p.nextAuthSecret)
    ensures DecryptSecret(p, EncryptSecret(p, secret, encKey, iv), decKey) == Ok(secret)
    ensures SecondField(EncryptSecret(p, secret, encKey, iv)) != ""
  {
    var c := p.aesEncrypt(DeriveKey(p, EncryptionKey(encKey, p.nextAuthSecret)), iv, secret);
    EncryptedFields(p, secret, encKey, iv);
    HexRoundTrip(iv);
    HexRoundTrip(c);
    assert |c| > 0;
  }

  /** Two encryptions with different IVs never produce the same text. */
  lemma FreshIvFreshCiphertext(p: Platform, secret: string, key: Option<string>, iv1: seq<bv8>, iv2: seq<bv8>)
    requires |iv1| == 16 && |iv2| == 16 && iv1 != iv2
    ensures EncryptSecret(p, secret, key, iv1) != EncryptSecret(p, secret, key, iv2)
  {
  }

  // --------------------------------------------------------------- TOTP

  /** `verifyTOTP`: never throws; true exactly when otplib returns `valid === true`. */
  function VerifyTotp(p: Platform, token: string, secret: string): (ok: bool)
    ensures ok <==> p.otpVerify(token, secret) == Returned(true)
    ensures p.otpVerify(token, secret) == Threw ==> !ok
  {
    match p.otpVerify(token, secret)
    case Threw => false
    case Returned(valid) => valid
  }

  /** `generateQRCodeDataURL(secret, email)`: the QR image of the otpauth URI for this issuer and account. */
  function QrCodeDataUrl(p: Platform, secret: string, email: string): Option<string>
  {
    p.qrDataUrl(p.otpUri(secret, AppName, email))
  }

  // ------------------------------------------------------- backup codes

  /** One code: four random bytes, hex-encoded and upper-cased. */
  function CodeOf(w: Word): (code: string)
    ensures |code| == 8
    ensures forall i | 0 <= i < 8 :: IsUpperHexChar(code[i])
  {
    ToUpper(HexEncode([w.b0, w.b1, w.b2, w.b3]))
  }

  /** The codes `generateBackupCodes(count)` returns when the i-th draw of the random source is `rng(i)`. */
  function BackupCodes(count: int, rng: nat -> Word): (codes: seq<string>)
    ensures |codes| == if count > 0 then count else 0
    ensures forall i | 0 <= i < |codes| :: codes[i] == CodeOf(rng(i))
    decreases count
  {
    if count <= 0 then [] else BackupCodes(count - 1, rng) + [CodeOf(rng(count - 1))]
  }

  /** `generateBackupCodes(count)`: `count` codes (none for a non-positive count), each 8 characters of `0-9A-F`. */
  method GenerateBackupCodes(count: int, rng: nat -> Word) returns (codes: seq<string>)
    ensures codes == BackupCodes(count, rng)
    ensures |codes| == if count > 0 then count else 0
    ensures forall i | 0 <= i < |codes| :: |codes[i]| == 8 && forall j | 0 <= j < 8 :: IsUpperHexChar(codes[i][j])
  {
    codes := [];
    var i := 0;
    while i < count
      invariant 0 <= i <= if count > 0 then count else 0
      invariant codes == BackupCodes(i, rng)
    {
      var code := CodeOf(rng(i));
      codes := codes + [code];
      i := i + 1;
    }
  }

  /** `hashBackupCodes`: hashes each code on its own, keeping length and order. */
  function HashBackupCodes(p: Platform, codes: seq<string>): (hashes: seq<string>)
    ensures |hashes| == |codes|
    ensures forall i | 0 <= i < |codes| :: hashes[i] == p.sha256Hex(codes[i])
  {
    if codes == [] then [] else [p.sha256Hex(codes[0])] + HashBackupCodes(p, codes[1..])
  }

  /** `Array.prototype.indexOf`: the first position of `x`, or -1. */
  function IndexOf(xs: seq<string>, x: string): (i: int)
    ensures -1 <= i < |xs|
    ensures i == -1 <==> x !in xs
    ensures 0 <= i ==> xs[i] == x && x !in xs[..i]
  {
    if xs == [] then -1
    else if xs[0] == x then 0
    else
      var j := IndexOf(xs[1..], x);
      if j == -1 then -1
      else
        assert xs[..j + 1] == [xs[0]] + xs[1..][..j];
        j + 1
  }

  datatype BackupCheck = BackupCheck(valid: bool, remainingCodes: seq<string>)

  function ProvidedHash(p: Platform, provided: string): string
  {
    p.sha256Hex(ToUpper(provided))
  }

  /**
   * `verifyBackupCode`: the upper-cased code is hashed and looked up; a match removes
   * exactly the first equal hash and keeps the others in order, no match keeps the list.
   */
  function VerifyBackupCode(p: Platform, provided: string, hashed: seq<string>): (r: BackupCheck)
    ensures r.valid <==> ProvidedHash(p, provided) in hashed
    ensures !r.valid ==> r.remainingCodes == hashed
    ensures r.valid ==> |r.remainingCodes| == |hashed| - 1
    ensures r.valid ==> exists i | 0 <= i < |hashed| ::
      hashed[i] == ProvidedHash(p, provided) && ProvidedHash(p, provided) !in hashed[..i]
      && r.remainingCodes == hashed[..i] + hashed[i + 1..]
    ensures r.valid ==> multiset(r.remainingCodes) + multiset{ProvidedHash(p, provided)} == multiset(hashed)
  {
    var h := ProvidedHash(p, provided);
    var index := IndexOf(hashed, h);
    if index == -1 then BackupCheck(false, hashed)
    else
      assert hashed == hashed[..index] + [hashed[index]] + hashed[index + 1..];
      BackupCheck(true, hashed[..index] + hashed[index + 1..])
  }

  predicate Distinct(xs: seq<string>)
  {
    forall i, j | 0 <= i < j < |xs| :: xs[i] != xs[j]
  }

  /** With pairwise distinct stored hashes, a code that was just accepted is rejected by the list it left behind. */
  lemma {:induction false} BackupCodeSingleUse(p: Platform, provided: string, hashed: seq<string>)
    requires Distinct(hashed)
    requires VerifyBackupCode(p, provided, hashed).valid
    ensures Distinct(VerifyBackupCode(p, provided, hashed).remainingCodes)
    ensures !VerifyBackupCode(p, provided, VerifyBackupCode(p, provided, hashed).remainingCodes).valid
  {
    var h := ProvidedHash(p, provided);
    var rest := VerifyBackupCode(p, provided, hashed).remainingCodes;
    var i := IndexOf(hashed, h);
    assert rest == hashed[..i] + hashed[i + 1..];
    forall j | 0 <= j < |rest| ensures rest[j] != h {
      if j < i { assert rest[j] == hashed[j]; } else { assert rest[j] == hashed[j + 1]; }
    }
    forall a, b | 0 <= a < b < |rest| ensures rest[a] != rest[b] {
      var a' := if a < i then a else a + 1;
      var b' := if b < i then b else b + 1;
      assert rest[a] == hashed[a'] && rest[b] == hashed[b'];
    }
  }

  /** Consuming one code leaves every other stored code usable. */
  lemma {:induction false} OtherBackupCodesStayValid(p: Platform, used: string, other: string, hashed: seq<string>)
    requires VerifyBackupCode(p, used, hashed).valid
    requires ProvidedHash(p, other) in hashed && ProvidedHash(p, other) != ProvidedHash(p, used)
    ensures VerifyBackupCode(p, other, VerifyBackupCode(p, used, hashed).remainingCodes).valid
  {
    var h, g := ProvidedHash(p, used), ProvidedHash(p, other);
    var rest := VerifyBackupCode(p, used, hashed).remainingCodes;
    assert multiset(rest) + multiset{h} == multiset(hashed);
    assert g in multiset(hashed);
    assert g in multiset(rest);
  }

  lemma UpperOfLower(s: string)
    ensures ToUpper(ToLower(s)) == ToUpper(s) && ToUpper(ToUpper(s)) == ToUpper(s)
  {
  }

  /** The code is upper-cased before hashing: lower-, upper- and mixed-case entries are treated alike. */
  lemma BackupCodeCaseInsensitive(p: Platform, provided: string, hashed: seq<string>)
    ensures VerifyBackupCode(p, ToLower(provided), hashed) == VerifyBackupCode(p, provided, hashed)
    ensures VerifyBackupCode(p, ToUpper(provided), hashed) == VerifyBackupCode(p, provided, hashed)
  {
    UpperOfLower(provided);
  }

  /** Every code handed out is accepted against the hashes stored for it. */
  lemma {:induction false} IssuedCodesAccepted(p: Platform, count: int, rng: nat -> Word, k: nat)
    requires k < |BackupCodes(count, rng)|
    ensures VerifyBackupCode(p, BackupCodes(count, rng)[k], HashBackupCodes(p, BackupCodes(count, rng))).valid
  {
    var codes := BackupCodes(count, rng);
    var code := codes[k];
    assert ToUpper(code) == code by {
      forall j | 0 <= j < |code| ensures ToUpper(code)[j] == code[j] {
        assert IsUpperHexChar(code[j]);
      }
    }
    assert HashBackupCodes(p, codes)[k] == ProvidedHash(p, code);
  }
}
