/** The mock `POST /api/auth/signup` handler: it accepts any complete form. */
module SignupRoute {
  import opened Wrappers
  import opened Text
  import LoginRoute

  const MissingFieldsError := "Name, email, and password are required."

  /** The JSON body once parsed: a field may be absent. */
  datatype SignupBody = SignupBody(name: Option<string>, email: Option<string>, password: Option<string>)

  /** A 400 error, or the 200 payload with the new account. */
  datatype Response = ErrorResponse(status: int, error: string) | SessionResponse(token: string, user: LoginRoute.User)

  /**
   * `POST` with mocks enabled: 400 when any field is missing or empty (checked on the
   * raw values); otherwise the mock token, the fresh `userId`, the trimmed name and the
   * trimmed, lower-cased email.
   */
  function Post(body: SignupBody, userId: string): (r: Response)
    ensures r.ErrorResponse? <==>
      LoginRoute.Missing(body.name) || LoginRoute.Missing(body.email) || LoginRoute.Missing(body.password)
    ensures r.ErrorResponse? ==> r == ErrorResponse(400, MissingFieldsError)
    ensures r.SessionResponse? ==>
      && r.token == LoginRoute.MockToken
      && r.user.id == userId
      && r.user.name == Trim(body.name.value)
      && r.user.email == LoginRoute.NormalizeEmail(body.email.value)
  {
    if LoginRoute.Missing(body.name) || LoginRoute.Missing(body.email) || LoginRoute.Missing(body.password) then
      ErrorResponse(400, MissingFieldsError)
    else
      SessionResponse(LoginRoute.MockToken, LoginRoute.User(userId, Trim(body.name.value), LoginRoute.NormalizeEmail(body.email.value)))
  }

  /** A name of white space only passes the check and comes back empty. */
  lemma BlankNameIsAccepted(name: string, email: string, password: string, userId: string)
    requires name != "" && email != "" && password != ""
    requires forall i :: 0 <= i < |name| ==> IsSpace(name[i])
    ensures Post(SignupBody(Some(name), Some(email), Some(password)), userId).SessionResponse?
    ensures Post(SignupBody(Some(name), Some(email), Some(password)), userId).user.name == ""
  {
    BlankIffAllSpace(name);
  }

  /** The signup reply's email is already in the form the login handler compares against. */
  lemma ReturnedEmailIsNormalized(body: SignupBody, userId: string)
    requires Post(body, userId).SessionResponse?
    ensures LoginRoute.NormalizeEmail(Post(body, userId).user.email) == Post(body, userId).user.email
  {
    LowerOfTrimmedIsTrimmed(body.email.value);
    ToLowerIdempotent(Trim(body.email.value));
  }
}
