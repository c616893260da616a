/** The mock `POST /api/auth/login` handler: one demo account. */
module LoginRoute {
  import opened Wrappers
  import opened Text

  datatype User = User(id: string, name: string, email: string)

  const DefaultUser := User("user-001", "Scott", "scott@example.com")
  const MockPassword := "Escrow123!"
  const MockToken := "mock-token"
  const MissingFieldsError := "Email and password are required."
  const BadCredentialsError := "Invalid email or password."

  /** The JSON body once parsed: a field may be absent. */
  datatype LoginBody = LoginBody(email: Option<string>, password: Option<string>)

  /** A JSON error with its HTTP status, or the 200 session payload. */
  datatype Response = ErrorResponse(status: int, error: string) | SessionResponse(token: string, user: User)

  /** `!value` for an optional string: absent or empty. */
  predicate Missing(value: Option<string>) {
    value == None || value == Some("")
  }

  /** The address compared with the demo account: trimmed, then lower-cased. */
  function NormalizeEmail(email: string): string {
    ToLower(Trim(email))
  }

  /**
   * `POST` with mocks enabled: 400 when a field is missing, the session for the demo
   * account, and one and the same 401 for any other address or password.
   */
  function Post(body: LoginBody): (r: Response)
    ensures r == ErrorResponse(400, MissingFieldsError) <==> Missing(body.email) || Missing(body.password)
    ensures r.SessionResponse? <==>
      !Missing(body.email) && !Missing(body.password)
      && NormalizeEmail(body.email.value) == DefaultUser.email && body.password.value == MockPassword
    ensures r.SessionResponse? ==> r == SessionResponse(MockToken, DefaultUser)
    ensures r.ErrorResponse? ==> r == ErrorResponse(400, MissingFieldsError) || r == ErrorResponse(401, BadCredentialsError)
  {
    if Missing(body.email) || Missing(body.password) then ErrorResponse(400, MissingFieldsError)
    else if NormalizeEmail(body.email.value) != DefaultUser.email || body.password.value != MockPassword then
      ErrorResponse(401, BadCredentialsError)
    else SessionResponse(MockToken, DefaultUser)
  }

  /** Case and surrounding white space in the address do not matter. */
  lemma CaseAndSpaceVariantsLogIn()
    ensures Post(LoginBody(Some(" Scott@Example.COM\n"), Some(MockPassword))) == SessionResponse(MockToken, DefaultUser)
  {
    var email := " Scott@Example.COM\n";
    TrimsToInner();
    LowersToDefault();
    assert NormalizeEmail(email) == DefaultUser.email;
    assert |email| > 0 && |MockPassword| > 0;
  }

  lemma TrimsToInner()
    ensures Trim(" Scott@Example.COM\n") == "Scott@Example.COM"
  {
    var inner := "Scott@Example.COM";
    var tail := inner + "\n";
    assert " Scott@Example.COM\n" == " " + tail;
    assert TrimStart(" " + tail) == tail by {
      assert (" " + tail)[1..] == tail;
      assert tail[0] == 'S';
    }
    assert TrimEnd(tail) == inner by {
      assert tail[..|tail| - 1] == inner;
      assert TrimEnd(inner) == inner;
    }
  }

  lemma LowersToDefault()
    ensures ToLower("Scott@Example.COM") == DefaultUser.email
  {
  }

  /** The password is compared exactly: a case variant of it is refused. */
  lemma PasswordIsCaseSensitive()
    ensures Post(LoginBody(Some(DefaultUser.email), Some("escrow123!"))) == ErrorResponse(401, BadCredentialsError)
  {
    assert "escrow123!"[0] != MockPassword[0];
  }

  /** A wrong address and a wrong password cannot be told apart from the reply. */
  lemma WrongEmailAndWrongPasswordLookAlike(email: string, password: string, otherPassword: string)
    requires email != "" && password != "" && otherPassword != ""
    requires NormalizeEmail(email) != DefaultUser.email
    requires otherPassword != MockPassword
    ensures Post(LoginBody(Some(email), Some(password))) == Post(LoginBody(Some(DefaultUser.email), Some(otherPassword)))
  {
  }
}
