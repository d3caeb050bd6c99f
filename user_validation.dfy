/**
  Input checks for user registration and update: a field given must not be empty or
  white space only. Nothing else is checked (no email format, no password length).
 */
module UserValidation {
  import opened Wrappers
  import opened Errors
  import opened Strings

  const EmailEmpty := Message("email cannot be empty")
  const NameEmpty := Message("name cannot be empty")
  const PasswordEmpty := Message("password cannot be empty")

  /**
    `ValidateCreateUserInput`: email, then name, then password; the first blank one
    decides the error, and with none blank the input passes.
   */
  function ValidateCreateUserInput(email: string, name: string, password: string): (r: Outcome)
    ensures r == Pass <==> !IsBlank(email) && !IsBlank(name) && !IsBlank(password)
    ensures IsBlank(email) ==> r == Fail(EmailEmpty)
    ensures !IsBlank(email) && IsBlank(name) ==> r == Fail(NameEmpty)
    ensures !IsBlank(email) && !IsBlank(name) && IsBlank(password) ==> r == Fail(PasswordEmpty)
  {
    if TrimSpace(email) == "" then Fail(EmailEmpty)
    else if TrimSpace(name) == "" then Fail(NameEmpty)
    else if TrimSpace(password) == "" then Fail(PasswordEmpty)
    else Pass
  }

  /**
    `ValidateUpdateUserInput`: the same checks in the same order, applied only to the
    fields that were given.
   */
  function ValidateUpdateUserInput(email: Option<string>, name: Option<string>, password: Option<string>): (r: Outcome)
    ensures r == Pass <==> !BlankGiven(email) && !BlankGiven(name) && !BlankGiven(password)
    ensures BlankGiven(email) ==> r == Fail(EmailEmpty)
    ensures !BlankGiven(email) && BlankGiven(name) ==> r == Fail(NameEmpty)
    ensures !BlankGiven(email) && !BlankGiven(name) && BlankGiven(password) ==> r == Fail(PasswordEmpty)
  {
    if email.Some? && TrimSpace(email.value) == "" then Fail(EmailEmpty)
    else if name.Some? && TrimSpace(name.value) == "" then Fail(NameEmpty)
    else if password.Some? && TrimSpace(password.value) == "" then Fail(PasswordEmpty)
    else Pass
  }

  /** An update that gives no field passes. */
  lemma UpdateNothingPasses()
    ensures ValidateUpdateUserInput(None, None, None) == Pass
  {
  }

  /** An update that gives every field is judged exactly as a registration. */
  lemma UpdateAllGivenAgreesWithCreate(email: string, name: string, password: string)
    ensures ValidateUpdateUserInput(Some(email), Some(name), Some(password))
         == ValidateCreateUserInput(email, name, password)
  {
  }

  /** There is no format or length check: "x" is a valid email, name and password. */
  lemma OneLetterPasses()
    ensures ValidateCreateUserInput("x", "x", "x") == Pass
  {
    assert !IsSpace("x"[0]);
  }
}
