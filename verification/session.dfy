/** The browser session of the single-page app: the three `localStorage`
    keys it keeps, restoring the user on start, the login and logout
    transitions, and what each route shows for the current user. */
module Session {
  import opened Wrappers
  import opened UserJson

  /** `localStorage`: text values under text keys. */
  type Store = map<string, string>

  const TokenKey: string := "token"
  const RefreshKey: string := "refresh_token"
  const UserKey: string := "user"

  /** `getItem`: `null` for a missing key. */
  function GetItem(store: Store, key: string): Option<string> {
    if key in store then Some(store[key]) else None
  }

  /** JavaScript truthiness of `getItem`'s result: present and not empty. */
  predicate Truthy(v: Option<string>) {
    v.Some? && v.value != ""
  }

  /** `setItem(key, value)` converts its value to text: `undefined` is
      stored as the text "undefined". */
  function StoredText(v: Option<string>): (r: string)
    ensures v.Some? ==> r == v.value
    ensures v.None? ==> r == "undefined"
  {
    match v
    case Some(s) => s
    case None => "undefined"
  }

  /** The app's state: the signed-in user and the browser's storage. */
  datatype State = State(user: Option<UserData>, store: Store)

  /** What starting the app does: no user, a restored user, or a stored
      user text `JSON.parse` cannot read as a user, which stops the start. */
  datatype Boot = Started(user: Option<UserData>) | Unreadable

  /** The start-up effect: a user is restored when an access token or a
      refresh token is stored (either one truthy) and a user text is
      stored. */
  function Restore(store: Store): (r: Boot)
    ensures r.Started? && r.user.Some? <==>
              (Truthy(GetItem(store, TokenKey)) || Truthy(GetItem(store, RefreshKey)))
              && Truthy(GetItem(store, UserKey)) && Parse(store[UserKey]).Some?
    ensures r.Started? && r.user.Some? ==> r.user == Parse(store[UserKey])
    ensures (!(Truthy(GetItem(store, TokenKey)) || Truthy(GetItem(store, RefreshKey)))
             || !Truthy(GetItem(store, UserKey))) ==> r == Started(None)
  {
    if (Truthy(GetItem(store, TokenKey)) || Truthy(GetItem(store, RefreshKey))) && Truthy(GetItem(store, UserKey)) then
      match Parse(store[UserKey])
      case Some(u) => Started(Some(u))
      case None => Unreadable
    else Started(None)
  }

  /** `handleLogin(userData, accessToken, refreshToken)`: whatever arrives
      is stored, a missing token as "undefined". */
  function HandleLogin(s: State, user: UserData, accessToken: Option<string>, refreshToken: Option<string>): (r: State)
    ensures r.user == Some(user)
    ensures GetItem(r.store, TokenKey) == Some(StoredText(accessToken))
    ensures GetItem(r.store, RefreshKey) == Some(StoredText(refreshToken))
    ensures GetItem(r.store, UserKey) == Some(Stringify(user))
    ensures forall k :: k !in {TokenKey, RefreshKey, UserKey} ==> GetItem(r.store, k) == GetItem(s.store, k)
  {
    State(Some(user),
          s.store[TokenKey := StoredText(accessToken)][RefreshKey := StoredText(refreshToken)][UserKey := Stringify(user)])
  }

  /** `handleLogout`: no user, and the three keys removed. */
  function HandleLogout(s: State): (r: State)
    ensures r.user.None?
    ensures GetItem(r.store, TokenKey).None? && GetItem(r.store, RefreshKey).None? && GetItem(r.store, UserKey).None?
    ensures forall k :: k !in {TokenKey, RefreshKey, UserKey} ==> GetItem(r.store, k) == GetItem(s.store, k)
  {
    State(None, s.store - {TokenKey, RefreshKey, UserKey})
  }

  /** Logging out twice is logging out once. */
  lemma LogoutIdempotent(s: State)
    ensures HandleLogout(HandleLogout(s)) == HandleLogout(s)
  {
    var once := HandleLogout(s);
    var twice := HandleLogout(once);
    assert twice.store == once.store by {
      forall k ensures (k in twice.store) == (k in once.store) {
        if k !in {TokenKey, RefreshKey, UserKey} {
          assert GetItem(twice.store, k) == GetItem(once.store, k);
        }
      }
    }
  }

  /** After logging out, starting the app restores no one. */
  lemma LogoutThenRestore(s: State)
    ensures Restore(HandleLogout(s).store) == Started(None)
  {
  }

  /** After logging in, starting the app restores the same user, unless
      both tokens arrived as empty texts. */
  lemma LoginThenRestore(s: State, user: UserData, accessToken: Option<string>, refreshToken: Option<string>)
    requires accessToken != Some("") || refreshToken != Some("")
    ensures Restore(HandleLogin(s, user, accessToken, refreshToken).store) == Started(Some(user))
  {
    ParseStringify(user);
  }

  /** The login response has no refresh token, so "undefined" is stored
      under `refresh_token`; that text is truthy, so the restore condition
      then holds whatever the access token was. */
  lemma MissingRefreshIsTruthy(s: State, user: UserData, accessToken: Option<string>)
    ensures var r := HandleLogin(s, user, accessToken, None);
            GetItem(r.store, RefreshKey) == Some("undefined") && Truthy(GetItem(r.store, RefreshKey))
            && Restore(r.store) == Started(Some(user))
  {
    ParseStringify(user);
  }

  // ---- routes ----

  /** The four routes: `/login`, everything under `/admin`, everything
      under `/employee`, and `/`. The redirects go to `/login`, `/admin`
      and `/employee`. */
  datatype Path = LoginPath | AdminArea | EmployeeArea | Root

  datatype Screen = LoginPage | AdminDashboard(admin: UserData) | EmployeeDashboard(employee: UserData) | Redirect(to: Path)

  const AdminRole: string := "admin"
  const EmployeeRole: string := "employee"

  /** Where a signed-in user belongs: `/admin` for the admin role, `/employee`
      for any other. */
  function Home(u: UserData): (p: Path)
    ensures p == AdminArea <==> u.role == AdminRole
    ensures p == EmployeeArea <==> u.role != AdminRole
  {
    if u.role == AdminRole then AdminArea else EmployeeArea
  }

  function Route(path: Path, user: Option<UserData>): (r: Screen)
    ensures r.AdminDashboard? <==> path == AdminArea && user.Some? && user.value.role == AdminRole
    ensures r.EmployeeDashboard? <==> path == EmployeeArea && user.Some? && user.value.role == EmployeeRole
    ensures r.LoginPage? <==> path == LoginPath && user.None?
    ensures r.AdminDashboard? ==> r.admin == user.value
    ensures r.EmployeeDashboard? ==> r.employee == user.value
    ensures (path == AdminArea || path == EmployeeArea) && r.Redirect? ==> r.to == LoginPath
    ensures (path == LoginPath || path == Root) && user.Some? ==> r == Redirect(Home(user.value))
    ensures path == Root && user.None? ==> r == Redirect(LoginPath)
  {
    match path
    case LoginPath => if user.None? then LoginPage else Redirect(Home(user.value))
    case AdminArea => if user.Some? && user.value.role == AdminRole then AdminDashboard(user.value) else Redirect(LoginPath)
    case EmployeeArea =>
      if user.Some? && user.value.role == EmployeeRole then EmployeeDashboard(user.value) else Redirect(LoginPath)
    case Root => if user.None? then Redirect(LoginPath) else Redirect(Home(user.value))
  }

  /** The roles the server issues. */
  predicate KnownRole(u: Option<UserData>) {
    u.None? || u.value.role == AdminRole || u.value.role == EmployeeRole
  }

  /** The screen reached from `path` by following at most `hops`
      redirects. */
  function Follow(path: Path, user: Option<UserData>, hops: nat): Screen
    decreases hops
  {
    var first := Route(path, user);
    if first.Redirect? && hops > 0 then Follow(first.to, user, hops - 1) else first
  }

  /** With no user or a user of a role the server issues, every route ends,
      within two redirects, at the login form for no user and at the
      user's own dashboard otherwise. */
  lemma RedirectsSettle(path: Path, user: Option<UserData>)
    requires KnownRole(user)
    ensures user.None? ==> Follow(path, user, 2) == LoginPage
    ensures user.Some? && user.value.role == AdminRole ==> Follow(path, user, 2) == AdminDashboard(user.value)
    ensures user.Some? && user.value.role == EmployeeRole ==> Follow(path, user, 2) == EmployeeDashboard(user.value)
  {
  }

  /** A stored user of any other role is sent from `/login` to `/employee`
      and from there back to `/login`, and no number of redirects ends it. */
  lemma {:induction false} OtherRoleNeverSettles(path: Path, u: UserData, hops: nat)
    requires u.role != AdminRole && u.role != EmployeeRole
    ensures Follow(path, Some(u), hops).Redirect?
    decreases hops
  {
    if hops > 0 {
      OtherRoleNeverSettles(Route(path, Some(u)).to, u, hops - 1);
    }
  }
}
