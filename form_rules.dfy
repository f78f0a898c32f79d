/** The email rule both browser forms apply before anything is sent: a value
    that is blank after trimming is missing; otherwise the untrimmed value must
    match the same pattern the server uses. */
module FormRules {
  import opened JsText
  import Auth

  const EmailRequired := "Email is required"
  const InvalidEmail := "Enter a valid email address"
  const PasswordRequired := "Password is required"
  const PasswordTooShort := "Password must be at least 8 characters long"

  /** The message the forms show under the email field, if any. `!s.trim()`
      holds exactly when `s` is all white space (see `Trim`). */
  function EmailError(email: string): (r: Option<string>)
    ensures r.None? <==> !AllSpaces(email) && Auth.EmailShape(email)
    ensures r == Some(EmailRequired) <==> AllSpaces(email)
    ensures r.Some? ==> r.value == EmailRequired || r.value == InvalidEmail
  {
    if AllSpaces(email) then Some(EmailRequired)
    else if !Auth.IsValidEmail(email) then Some(InvalidEmail)
    else None
  }

  /** The pattern is applied to the untrimmed value, so a leading space makes
      an otherwise valid address invalid rather than missing. */
  lemma LeadingSpaceInvalid(email: string)
    requires email != [] && IsSpace(email[0]) && !AllSpaces(email)
    ensures EmailError(email) == Some(InvalidEmail)
  {
    assert !Auth.Plain(email[0]);
  }
}
