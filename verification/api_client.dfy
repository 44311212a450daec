/** The browser's HTTP client: where it sends requests and the bearer
    header it adds to each of them. */
module ApiClient {
  import opened Wrappers
  import opened Session

  const DefaultBackend: string := "https://hrms-aqi6.onrender.com"

  /** `(REACT_APP_BACKEND_URL || default).replace(/\/$/, '')`: an unset or
      empty variable falls back to the default, and one `/` at the very end
      is dropped. */
  function BackendUrl(env: Option<string>): (r: string)
    ensures var base := if env.Some? && env.value != "" then env.value else DefaultBackend;
            if |base| > 0 && base[|base| - 1] == '/' then r + "/" == base else r == base
  {
    var base := if env.Some? && env.value != "" then env.value else DefaultBackend;
    if |base| > 0 && base[|base| - 1] == '/' then base[..|base| - 1] else base
  }

  /** Every request goes under `/api` of the backend. */
  function ApiUrl(env: Option<string>): (r: string)
    ensures |r| >= 4 && r[..|r| - 4] == BackendUrl(env) && r[|r| - 4..] == "/api"
  {
    BackendUrl(env) + "/api"
  }

  /** Unset or empty, the variable gives the default backend's API. */
  lemma DefaultApiUrl()
    ensures ApiUrl(None) == ApiUrl(Some("")) == "https://hrms-aqi6.onrender.com/api"
  {
  }

  /** A base that does not end in two slashes joins `/api` without a
      doubled slash; one that does keeps one of them. */
  lemma SingleSlashJoin(env: Option<string>)
    ensures var base := if env.Some? && env.value != "" then env.value else DefaultBackend;
            var b := BackendUrl(env);
            (|base| < 2 || base[|base| - 2..] != "//") <==> (|b| == 0 || b[|b| - 1] != '/')
  {
    var base := if env.Some? && env.value != "" then env.value else DefaultBackend;
    var b := BackendUrl(env);
    if |base| >= 2 && base[|base| - 1] == '/' {
      assert b == base[..|base| - 1];
      assert base[|base| - 2..] == [b[|b| - 1], '/'];
    } else if |base| >= 2 {
      assert base[|base| - 2..][1] == base[|base| - 1];
    }
  }

  /** A request as the interceptor sees it: its headers and the rest,
      which it does not touch. */
  datatype Config<T> = Config(verb: string, url: string, headers: map<string, string>, data: T)

  const Authorization: string := "Authorization"

  /** The request interceptor: with a truthy stored token the request
      carries `Bearer <token>`; without one it goes out as it was. */
  function Decorate<T>(store: Store, config: Config<T>): (r: Config<T>)
    ensures r.verb == config.verb && r.url == config.url && r.data == config.data
    ensures Truthy(GetItem(store, TokenKey)) ==> r.headers == config.headers[Authorization := "Bearer " + store[TokenKey]]
    ensures !Truthy(GetItem(store, TokenKey)) ==> r == config
    ensures forall h :: h in config.headers && h != Authorization ==> h in r.headers && r.headers[h] == config.headers[h]
  {
    var token := GetItem(store, TokenKey);
    if Truthy(token) then config.(headers := config.headers[Authorization := "Bearer " + token.value]) else config
  }

  /** After a login with a non-empty access token, requests carry it. */
  lemma LoginAuthorizes<T>(s: State, user: UserJson.UserData, token: string, refreshToken: Option<string>, config: Config<T>)
    requires token != ""
    ensures var r := Decorate(HandleLogin(s, user, Some(token), refreshToken).store, config);
            r.headers == config.headers[Authorization := "Bearer " + token]
  {
  }

  /** After logout, requests go out as built. */
  lemma LogoutUnauthorizes<T>(s: State, config: Config<T>)
    ensures Decorate(HandleLogout(s).store, config) == config
  {
  }

  /** A response without an access token leaves the text "undefined" in
      the store, and requests then carry `Bearer undefined`. */
  lemma MissingTokenSent<T>(s: State, user: UserJson.UserData, refreshToken: Option<string>, config: Config<T>)
    ensures var r := Decorate(HandleLogin(s, user, None, refreshToken).store, config);
            r.headers[Authorization] == "Bearer undefined"
  {
  }
}
