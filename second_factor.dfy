/**
 * The check the sign-in and disable routes share: decrypt the stored secret,
 * then verify the submitted token against it.
 */
module SecondFactor {
  import opened Common
  import opened Oracles
  import opened Totp

  /**
   * `verifyTOTP(token, decryptSecret(stored))`: a stored text that does not decrypt makes the
   * caller throw (`Err`); otherwise the verdict of the TOTP check.
   */
  function StoredTotp(p: Platform, stored: string, token: string): (r: Result<bool, CryptoError>)
    ensures r.Err? <==> DecryptSecret(p, stored, None).Err?
    ensures r == Ok(true) <==> exists s :: DecryptSecret(p, stored, None) == Ok(s) && p.otpVerify(token, s) == Returned(true)
  {
    match DecryptSecret(p, stored, None)
    case Err(e) => Err(e)
    case Ok(s) => Ok(VerifyTotp(p, token, s))
  }
}
