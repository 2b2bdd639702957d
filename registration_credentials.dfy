/** The shape check `register` applies to a username and password
    (`validateRegistrationCredentials`). */
module RegistrationCredentials {
  import opened Js

  const UsernameRequired: string := "Username required."
  const PasswordRequired: string := "Password required."
  const UsernameLength: string := "The username needs to be between 4 and 32 characters."
  const PasswordLength: string := "The password needs to be between 4 and 50 characters."
  const InvalidCharacters: string := "The username contains invalid characters."

  /** One character of the class `[a-z0-9-_]` under the case-insensitive
      flag: ASCII letters of either case, digits, '-' and '_'. */
  predicate UsernameChar(c: char) {
    ('a' <= c <= 'z') || ('A' <= c <= 'Z') || ('0' <= c <= '9') || c == '-' || c == '_'
  }

  /** `/^([a-z0-9-_]+)$/i.test(s)`. */
  predicate MatchesUsernamePattern(s: string): (r: bool)
    ensures r ==> s != [] && Utf16Length(s) == |s|
    ensures r ==> forall i :: 0 <= i < |s| ==> s[i] as int < 128
  {
    |s| >= 1 && forall i :: 0 <= i < |s| ==> UsernameChar(s[i])
  }

  predicate UsernameLengthOk(s: string) {
    4 <= Utf16Length(s) <= 32
  }

  predicate PasswordLengthOk(s: string) {
    4 <= Utf16Length(s) <= 50
  }

  /** The credentials registration accepts, stated as one conjunction. */
  predicate CredentialsAcceptable(username: JsValue<string>, password: JsValue<string>) {
    && username.Defined? && username.value != ""
    && password.Defined? && password.value != ""
    && 4 <= Utf16Length(username.value) <= 32
    && 4 <= Utf16Length(password.value) <= 50
    && forall i :: 0 <= i < |username.value| ==> UsernameChar(username.value[i])
  }

  /** The checks run in order, and the message of the first that fails is
      returned; "" means the credentials are acceptable. */
  function ValidateRegistrationCredentials(username: JsValue<string>, password: JsValue<string>): (r: string)
    ensures r == "" <==> CredentialsAcceptable(username, password)
    ensures r in {"", UsernameRequired, PasswordRequired, UsernameLength, PasswordLength, InvalidCharacters}
    ensures r == UsernameRequired <==> !Truthy(username)
    ensures r == PasswordRequired <==> Truthy(username) && !Truthy(password)
    ensures r == UsernameLength <==>
      Truthy(username) && Truthy(password) && !UsernameLengthOk(username.value)
    ensures r == PasswordLength <==>
      Truthy(username) && Truthy(password) && UsernameLengthOk(username.value)
      && !PasswordLengthOk(password.value)
    ensures r == InvalidCharacters <==>
      Truthy(username) && Truthy(password) && UsernameLengthOk(username.value)
      && PasswordLengthOk(password.value) && !MatchesUsernamePattern(username.value)
    ensures r == "" ==> 4 <= |username.value| <= 32
  {
    if !Truthy(username) then UsernameRequired
    else if !Truthy(password) then PasswordRequired
    else if !UsernameLengthOk(username.value) then UsernameLength
    else if !PasswordLengthOk(password.value) then PasswordLength
    else if !MatchesUsernamePattern(username.value) then InvalidCharacters
    else ""
  }
}
