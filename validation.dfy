/**
 * The input rules of backend/src/utils/validation.js: the phone predicate and
 * the length and pattern constraints of the registration and login schemas.
 * A schema accepts a body or names the first field, in declaration order, that
 * breaks its rule (the schema library stops at the first error).
 */
module Validation {
  import opened Wrappers
  import opened JsValues

  predicate IsAsciiDigit(c: char) {
    '0' <= c <= '9'
  }

  /** `[a-zA-Z0-9_]`. */
  predicate IsWordChar(c: char) {
    ('a' <= c <= 'z') || ('A' <= c <= 'Z') || IsAsciiDigit(c) || c == '_'
  }

  /** `[0-9]{n}` matching the whole of `s`. */
  predicate DigitsExactly(s: string, n: nat)
    decreases n
  {
    if n == 0 then s == [] else s != [] && IsAsciiDigit(s[0]) && DigitsExactly(s[1..], n - 1)
  }

  /** `[a-zA-Z0-9_]{lo,hi}` matching the whole of `s`. */
  predicate WordRun(s: string, lo: nat, hi: nat) {
    lo <= |s| <= hi && forall i :: 0 <= i < |s| ==> IsWordChar(s[i])
  }

  /** `/^\+998[0-9]{9}$/.test(phone)`. */
  predicate ValidatePhone(phone: string) {
    |phone| >= 4 && phone[..4] == "+998" && DigitsExactly(phone[4..], 9)
  }

  /** `/^@?[a-zA-Z0-9_]{3,32}$/`: an optional leading `@`, then 3 to 32 word characters. */
  predicate UsernamePattern(u: string) {
    WordRun(u, 3, 32) || (u != [] && u[0] == '@' && WordRun(u[1..], 3, 32))
  }

  lemma {:induction false} DigitsExactlyMeans(s: string, n: nat)
    ensures DigitsExactly(s, n) <==> |s| == n && forall i :: 0 <= i < |s| ==> IsAsciiDigit(s[i])
    decreases n
  {
    if n > 0 && s != [] {
      DigitsExactlyMeans(s[1..], n - 1);
      if |s| == n && (forall i :: 0 <= i < |s| ==> IsAsciiDigit(s[i])) {
        forall i | 0 <= i < |s[1..]| ensures IsAsciiDigit(s[1..][i]) {
          assert s[1..][i] == s[i + 1];
        }
      }
      if DigitsExactly(s, n) {
        forall i | 0 <= i < |s| ensures IsAsciiDigit(s[i]) {
          if i > 0 { assert s[i] == s[1..][i - 1]; }
        }
      }
    }
  }

  /** A valid phone is `+998` followed by exactly nine ASCII digits and nothing else. */
  lemma ValidatePhoneMeans(phone: string)
    ensures ValidatePhone(phone) <==>
      |phone| == 13 && phone[..4] == "+998" && forall i :: 4 <= i < 13 ==> IsAsciiDigit(phone[i])
  {
    if |phone| >= 4 {
      DigitsExactlyMeans(phone[4..], 9);
      if |phone| == 13 {
        assert forall i :: 4 <= i < 13 ==> phone[i] == phone[4..][i - 4];
      }
    }
  }

  /** The username pattern holds exactly for `@`-or-nothing followed by 3..32 word characters. */
  lemma UsernamePatternMeans(u: string)
    ensures UsernamePattern(u) <==>
      exists k :: 0 <= k <= 1 && k <= |u| && u[..k] == "@"[..k] && WordRun(u[k..], 3, 32)
  {
    if WordRun(u, 3, 32) {
      assert u[..0] == "@"[..0] && u[0..] == u;
    } else if u != [] && u[0] == '@' && WordRun(u[1..], 3, 32) {
      assert u[..1] == "@"[..1];
    } else {
      forall k | 0 <= k <= 1 && k <= |u| && u[..k] == "@"[..k]
        ensures !WordRun(u[k..], 3, 32)
      {
        if k == 0 { assert u[0..] == u; } else { assert u[0] == u[..1][0]; }
      }
    }
  }

  /** The body of a registration request. */
  datatype RegisterBody = RegisterBody(phone: JsString, email: JsString, password: JsString,
                                       firstName: JsString, lastName: JsString, username: JsString)

  /** The validated registration data: required fields are strings. */
  datatype RegisterData = RegisterData(phone: string, email: JsString, password: string,
                                       firstName: string, lastName: JsString, username: JsString)

  /** `Joi.string()` fields that may also be empty or null (`allow('', null)`). */
  predicate OptionalOk(v: JsString, rule: string -> bool) {
    !Truthy(v) || rule(v.value)
  }

  predicate PhoneOk(v: JsString) { v.Str? && ValidatePhone(v.value) }
  predicate PasswordOk(v: JsString) { v.Str? && |v.value| >= 8 }
  predicate FirstNameOk(v: JsString) { v.Str? && 1 <= |v.value| <= 64 }
  predicate LastNameOk(v: JsString) { !Truthy(v) || |v.value| <= 64 }
  predicate UsernameOk(v: JsString) { !Truthy(v) || UsernamePattern(v.value) }

  /**
   * `registerSchema.validate(body)`: the first field, in declaration order,
   * that breaks its rule, or the validated data. The e-mail format rule is
   * the parameter `isEmail`.
   */
  function ValidateRegister(b: RegisterBody, isEmail: string -> bool): Result<RegisterData, string>
  {
    if !PhoneOk(b.phone) then Err("phone")
    else if !OptionalOk(b.email, isEmail) then Err("email")
    else if !PasswordOk(b.password) then Err("password")
    else if !FirstNameOk(b.firstName) then Err("firstName")
    else if !LastNameOk(b.lastName) then Err("lastName")
    else if !UsernameOk(b.username) then Err("username")
    else Ok(RegisterData(b.phone.value, b.email, b.password.value, b.firstName.value, b.lastName, b.username))
  }

  /**
   * An accepted registration has a `+998` phone with nine digits, a password of
   * at least 8 characters, a first name of 1..64 characters, a last name of at
   * most 64 (or none) and a username that is absent, empty or matches the
   * pattern; the other fields pass through unchanged.
   */
  lemma RegisterAccepted(b: RegisterBody, isEmail: string -> bool)
    ensures ValidateRegister(b, isEmail).Ok? <==>
      PhoneOk(b.phone) && OptionalOk(b.email, isEmail) && PasswordOk(b.password)
      && FirstNameOk(b.firstName) && LastNameOk(b.lastName) && UsernameOk(b.username)
    ensures ValidateRegister(b, isEmail).Ok? ==>
      var d := ValidateRegister(b, isEmail).value;
      && |d.phone| == 13 && d.phone[..4] == "+998" && (forall i :: 4 <= i < 13 ==> IsAsciiDigit(d.phone[i]))
      && |d.password| >= 8 && 1 <= |d.firstName| <= 64
      && (d.lastName.Str? ==> |d.lastName.value| <= 64)
      && (Truthy(d.username) ==> UsernamePattern(d.username.value))
      && d.email == b.email && d.lastName == b.lastName && d.username == b.username
  {
    if b.phone.Str? { ValidatePhoneMeans(b.phone.value); }
  }

  /** Absent, null and empty optional fields never cause a rejection; missing required ones always do. */
  lemma RegisterFieldPresence(b: RegisterBody, isEmail: string -> bool)
    ensures !b.phone.Str? ==> ValidateRegister(b, isEmail) == Err("phone")
    ensures PhoneOk(b.phone) && !Truthy(b.email) && !b.password.Str? ==>
      ValidateRegister(b, isEmail) == Err("password")
    ensures PhoneOk(b.phone) && OptionalOk(b.email, isEmail) && PasswordOk(b.password) && !b.firstName.Str? ==>
      ValidateRegister(b, isEmail) == Err("firstName")
  {
  }

  datatype LoginBody = LoginBody(identifier: JsString, password: JsString)
  datatype LoginData = LoginData(identifier: string, password: string)

  /** `loginSchema.validate(body)`: both fields are required non-empty strings. */
  function ValidateLogin(b: LoginBody): (r: Result<LoginData, string>)
    ensures r.Ok? <==> Truthy(b.identifier) && Truthy(b.password)
    ensures r.Ok? ==> r.value == LoginData(b.identifier.value, b.password.value)
    ensures r.Err? ==> r.error == (if !Truthy(b.identifier) then "identifier" else "password")
  {
    if !Truthy(b.identifier) then Err("identifier")
    else if !Truthy(b.password) then Err("password")
    else Ok(LoginData(b.identifier.value, b.password.value))
  }
}
