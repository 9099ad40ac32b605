/** The authentication hooks: what a sign-in, a logout and a token refresh do to
    the backend, the store, the stored refresh token, the query cache and the route.
    The hooks' mutation functions are run to completion; their asynchrony is not
    modelled. */
module AuthHooks {
  import opened Wrappers
  import opened MockAuthApi
  import opened AuthStore

  /** Everything a hook can change. `cacheCleared` records `queryClient.clear()`;
      `route` the last navigation. */
  datatype World = World(backend: Backend, session: Session, cacheCleared: bool, route: Option<string>)

  /** The effect of a successful sign-in (`useLogin` and `useGoogleLogin` alike):
      the user and access token go into the store, the refresh token into storage,
      and the app moves to the inbox. */
  function SignedIn(w: World, s: SignIn): (r: World)
    ensures r.backend == s.backend
    ensures r.session.user == Some(s.response.user) && r.session.accessToken == Some(s.response.accessToken)
    ensures r.session.isAuthenticated && r.session.storedRefresh == Some(s.response.refreshToken)
    ensures r.route == Some("/inbox") && r.cacheCleared == w.cacheCleared
  {
    var session := SetRefreshToken(SetUser(w.session, s.response.user, s.response.accessToken), s.response.refreshToken);
    w.(backend := s.backend, session := session, route := Some("/inbox"))
  }

  /** `useLogin`: on a rejected login nothing but the failure is observable (the
      hook only logs it). */
  function UseLogin(w: World, email: string, password: string, an: string, rn: string, id: string): (r: World)
    ensures Login(w.backend, email, password, an, rn, id).Failure? ==> r == w
    ensures Login(w.backend, email, password, an, rn, id).Success? ==>
              r == SignedIn(w, Login(w.backend, email, password, an, rn, id).value)
  {
    match Login(w.backend, email, password, an, rn, id)
    case Success(s) => SignedIn(w, s)
    case Failure(_) => w
  }

  /** `useGoogleLogin`: the mock never rejects a credential. */
  function UseGoogleLogin(w: World, credential: string, an: string, rn: string, id: string): (r: World)
    ensures r.session.user == Some(User(id, "google.user@gmail.com", "Google User", None))
    ensures r.session.storedRefresh == Some(Token("refresh", rn)) && r.route == Some("/inbox")
    ensures r.session.isAuthenticated && r.session.accessToken == Some(Token("access", an))
    ensures r.backend.validRefresh == w.backend.validRefresh + {Token("refresh", rn)}
  {
    SignedIn(w, GoogleLogin(w.backend, credential, an, rn, id))
  }

  /** `useLogout`. Either way the store is signed out, the stored token removed and
      the app moves to the login page; only the success handler clears the query
      cache. The mutation never calls the backend, which keeps accepting the refresh
      token. (As written the mutation resolves at once, so `succeeded` is always
      true in practice.) */
  function UseLogout(w: World, succeeded: bool): (r: World)
    ensures r.backend == w.backend
    ensures !r.session.isAuthenticated && r.session.user.None? && r.session.accessToken.None?
    ensures r.session.storedRefresh.None? && r.route == Some("/login")
    ensures r.cacheCleared <==> succeeded || w.cacheCleared
  {
    var session := RemoveRefreshToken(LogoutStore(w.session));
    if succeeded then World(w.backend, session, true, Some("/login"))
    else w.(session := session, route := Some("/login"))
  }

  /** `useRefreshToken`. No stored token (or an empty one) fails before the backend
      is asked. A new access token is installed only if a user is signed in. Any
      failure signs the store out and removes the stored token. */
  function UseRefresh(w: World, nonce: string): (r: World)
    ensures r.backend == w.backend && r.cacheCleared == w.cacheCleared && r.route == w.route
    ensures (w.session.storedRefresh.None? || w.session.storedRefresh == Some("")) ==>
              && !r.session.isAuthenticated && r.session.storedRefresh.None?
              && r.session.user.None? && r.session.accessToken.None? && r.session.error.None?
    ensures w.session.storedRefresh.Some? && w.session.storedRefresh.value !in w.backend.validRefresh ==>
              && !r.session.isAuthenticated && r.session.storedRefresh.None?
              && r.session.user.None? && r.session.accessToken.None? && r.session.error.None?
    ensures w.session.storedRefresh.Some? && w.session.storedRefresh.value != ""
            && w.session.storedRefresh.value in w.backend.validRefresh ==>
              if w.session.user.Some?
              then r.session == SetUser(w.session, w.session.user.value, Token("access", nonce))
              else r.session == w.session
  {
    var failed := w.(session := RemoveRefreshToken(LogoutStore(w.session)));
    match w.session.storedRefresh
    case None => failed
    case Some(t) =>
      if t == "" then failed
      else
        match Refresh(w.backend, t, nonce)
        case Failure(_) => failed
        case Success(access) =>
          match w.session.user
          case Some(u) => w.(session := SetUser(w.session, u, access))
          case None => w
  }

  /** After a login, refreshing keeps the same user signed in with a new access
      token. */
  lemma RefreshAfterLogin(w: World, email: string, password: string, an: string, rn: string, id: string, nonce: string)
    requires Login(w.backend, email, password, an, rn, id).Success?
    ensures var signedIn := UseLogin(w, email, password, an, rn, id);
            var r := UseRefresh(signedIn, nonce);
            && r.session.isAuthenticated
            && r.session.user == signedIn.session.user
            && r.session.accessToken == Some(Token("access", nonce))
  {
  }

  /** After a logout, a refresh finds no stored token and leaves the user signed
      out; yet the backend still honours the token the login issued, since
      logging out never revokes it. */
  lemma LogoutKeepsBackendToken(w: World, email: string, password: string, an: string, rn: string, id: string, nonce: string)
    requires Login(w.backend, email, password, an, rn, id).Success?
    ensures var out := UseLogout(UseLogin(w, email, password, an, rn, id), true);
            && !UseRefresh(out, nonce).session.isAuthenticated
            && Refresh(out.backend, Token("refresh", rn), nonce).Success?
  {
  }

  /** Every hook keeps the store consistent. */
  lemma HooksKeepConsistent(w: World, email: string, password: string, credential: string, an: string, rn: string, id: string, nonce: string)
    requires Consistent(w.session)
    ensures Consistent(UseLogin(w, email, password, an, rn, id).session)
    ensures Consistent(UseGoogleLogin(w, credential, an, rn, id).session)
    ensures Consistent(UseLogout(w, true).session) && Consistent(UseLogout(w, false).session)
    ensures Consistent(UseRefresh(w, nonce).session)
  {
  }
}
