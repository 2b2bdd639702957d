/** `validateAndHashPassword`: a length check on a new password, then the
    hash that is to be stored. */
module PasswordHelper {
  import opened Wrappers
  import opened Js
  import opened Bcrypt
  import opened RegistrationCredentials

  const Required: string := "Password required."
  const Between: string := "The password must be between 4 and 50 characters."

  /** The error raised: the failed validation with its issue messages, or
      the error thrown for a falsy hash. */
  datatype PasswordError = ValidationError(issues: seq<string>) | HashError(message: string)

  /** The issues the schema reports. Every rule is checked (a failing rule
      does not stop the later ones) and the issues come in rule order:
      minimum length 1, minimum length 4, maximum length 50. */
  function PasswordIssues(password: string): (issues: seq<string>)
    ensures issues == [] <==> PasswordLengthOk(password)
    ensures password == "" ==> issues == [Required, Between]
    ensures password != "" && !PasswordLengthOk(password) ==> issues == [Between]
  {
    var n := Utf16Length(password);
    (if n < 1 then [Required] else [])
    + (if n < 4 then [Between] else [])
    + (if n > 50 then [Between] else [])
  }

  /** Validation comes first, and a rejected password yields its
      validation error whatever the hasher would have done. */
  function ValidateAndHashPassword(password: string, hash: Hasher): (r: Result<string, PasswordError>)
    ensures r.Ok? <==> PasswordLengthOk(password) && hash(password) != ""
    ensures r.Ok? ==> r.value == hash(password) && Compare(password, r.value, hash)
    ensures !PasswordLengthOk(password) ==> r == Err(ValidationError(PasswordIssues(password)))
    ensures PasswordLengthOk(password) && hash(password) == "" ==> r == Err(HashError("BCrypt error"))
  {
    var issues := PasswordIssues(password);
    if issues != [] then Err(ValidationError(issues))
    else
      var h := hash(password);
      if h == "" then Err(HashError("BCrypt error")) else Ok(h)
  }

  /** For a non-empty password the helper's length rule and the one
      registration applies agree: given an acceptable username, the helper
      passes the password exactly when registration accepts the pair. */
  lemma PasswordRulesAgree(username: string, password: string, hash: Hasher)
    requires UsernameLengthOk(username) && MatchesUsernamePattern(username)
    requires password != ""
    ensures (ValidateAndHashPassword(password, hash).Err? && ValidateAndHashPassword(password, hash).error.ValidationError?)
            <==> ValidateRegistrationCredentials(Defined(username), Defined(password)) != ""
  {
  }
}
