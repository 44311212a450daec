/** The sign-in page: one form for both signing in and creating an
    account, the request it sends, and what it hands to the app. */
module LoginForm {
  import opened Wrappers
  import opened UserJson
  import opened Session

  datatype FormData = FormData(email: string, password: string, fullName: string, role: string)

  datatype LoginState = LoginState(isLogin: bool, loading: bool, data: FormData)

  /** The page as it opens: sign-in mode, idle, an empty form whose role
      is already 'employee'. */
  const Initial: LoginState := LoginState(true, false, FormData("", "", "", "employee"))

  /** The link under the form switches between the two modes and touches
      nothing else. */
  function Toggle(s: LoginState): (r: LoginState)
    ensures r.isLogin == !s.isLogin && r.loading == s.loading && r.data == s.data
  {
    s.(isLogin := !s.isLogin)
  }

  lemma ToggleTwice(s: LoginState)
    ensures Toggle(Toggle(s)) == s
  {
  }

  /** What `api.post` sends: the sign-in credentials alone, or the whole
      form to create an account. */
  datatype Payload = Credentials(email: string, password: string) | Registration(form: FormData)

  datatype Post = Post(endpoint: string, payload: Payload)

  const LoginEndpoint: string := "/auth/login"
  const RegisterEndpoint: string := "/auth/register"

  /** Submitting: the page shows it is busy and sends one request. */
  function Submit(s: LoginState): (r: (LoginState, Post))
    ensures r.0 == s.(loading := true)
    ensures s.isLogin ==> r.1 == Post(LoginEndpoint, Credentials(s.data.email, s.data.password))
    ensures !s.isLogin ==> r.1 == Post(RegisterEndpoint, Registration(s.data))
  {
    var payload := if s.isLogin then Credentials(s.data.email, s.data.password) else Registration(s.data);
    (s.(loading := true), Post(if s.isLogin then LoginEndpoint else RegisterEndpoint, payload))
  }

  /** The response body's three members the page reads; a member the body
      lacks is `undefined`. */
  datatype Reply = Reply(user: UserData, accessToken: Option<string>, refreshToken: Option<string>)

  /** The `onLogin(user, access_token, refresh_token)` call. */
  datatype SignIn = SignIn(user: UserData, accessToken: Option<string>, refreshToken: Option<string>)

  /** The request's outcome: on success `onLogin` gets the reply's user and
      tokens; either way the page is idle again. */
  function Finish(s: LoginState, outcome: Result<Reply, string>): (r: (LoginState, Option<SignIn>))
    ensures r.0 == s.(loading := false)
    ensures r.1.Some? <==> outcome.Ok?
    ensures outcome.Ok? ==> r.1 == Some(SignIn(outcome.value.user, outcome.value.accessToken, outcome.value.refreshToken))
  {
    match outcome
    case Ok(reply) => (s.(loading := false), Some(SignIn(reply.user, reply.accessToken, reply.refreshToken)))
    case Err(_) => (s.(loading := false), None)
  }

  /** A whole round: submit, then the outcome. The page ends idle, in the
      mode and with the form it had. */
  lemma SubmitThenFinish(s: LoginState, outcome: Result<Reply, string>)
    requires !s.loading
    ensures Finish(Submit(s).0, outcome).0 == s
  {
  }

  /** The server's token response has an access token and a user but no
      refresh token: signing in stores the user and the token, and the
      text "undefined" as the refresh token. */
  lemma ServerReplySignsIn(app: State, s: LoginState, user: UserData, token: string)
    ensures var call := Finish(s, Ok(Reply(user, Some(token), None))).1.value;
            var after := HandleLogin(app, call.user, call.accessToken, call.refreshToken);
            after.user == Some(user) && GetItem(after.store, TokenKey) == Some(token)
            && GetItem(after.store, RefreshKey) == Some("undefined")
            && Restore(after.store) == Started(Some(user))
  {
    MissingRefreshIsTruthy(app, user, Some(token));
  }
}
