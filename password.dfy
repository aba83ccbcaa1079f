/** The strength rule of backend/src/utils/password.js. */
module Password {
  import opened Wrappers

  const MIN_PASSWORD_LENGTH := 8

  datatype Strength = Strength(valid: bool, message: Option<string>)

  /** `validatePasswordStrength`: a password is strong enough exactly when it has at least 8 characters. */
  function ValidatePasswordStrength(password: string): (r: Strength)
    ensures r.valid <==> |password| >= MIN_PASSWORD_LENGTH
    ensures r.message.Some? <==> !r.valid
  {
    if |password| < MIN_PASSWORD_LENGTH then
      Strength(false, Some("Parol kamida 8 ta belgidan iborat bo'lishi kerak"))
    else
      Strength(true, None)
  }

  /** Only the length is looked at: passwords of equal length get the same verdict. */
  lemma StrengthOnlyByLength(p: string, q: string)
    requires |p| == |q|
    ensures ValidatePasswordStrength(p) == ValidatePasswordStrength(q)
  {
  }
}
