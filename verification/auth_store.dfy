/** The client's authentication store together with the refresh token it keeps in
    browser storage. The in-memory part holds the user, the access token and the
    flags; `storedRefresh` is the storage entry under the key "refreshToken". */
module AuthStore {
  import opened Wrappers
  import opened MockAuthApi

  datatype Session = Session(
    user: Option<User>,
    accessToken: Option<string>,
    isAuthenticated: bool,
    isLoading: bool,
    error: Option<string>,
    storedRefresh: Option<string>)

  /** The storage key of the refresh token. */
  const RefreshTokenKey: string := "refreshToken"

  /** A fresh page with nothing stored. */
  const Initial: Session := Session(None, None, false, false, None, None)

  /** The store's promise: it is authenticated exactly when it holds an access
      token, and it only holds a user when authenticated. */
  predicate Consistent(s: Session) {
    && (s.isAuthenticated <==> s.accessToken.Some?)
    && (s.user.Some? ==> s.isAuthenticated)
  }

  /** `setAccessToken`: keeps the user. */
  function SetAccessToken(s: Session, token: string): (r: Session)
    ensures r.accessToken == Some(token) && r.isAuthenticated
    ensures r.(accessToken := s.accessToken, isAuthenticated := s.isAuthenticated) == s
  {
    s.(accessToken := Some(token), isAuthenticated := true)
  }

  /** `setUser`: the user and their access token together. */
  function SetUser(s: Session, user: User, token: string): (r: Session)
    ensures r.user == Some(user) && r.accessToken == Some(token) && r.isAuthenticated
    ensures r.(user := s.user, accessToken := s.accessToken, isAuthenticated := s.isAuthenticated) == s
  {
    s.(user := Some(user), accessToken := Some(token), isAuthenticated := true)
  }

  /** `logout`: forgets the user, the access token and the error, and removes the
      stored refresh token; the loading flag is left as it was. */
  function LogoutStore(s: Session): (r: Session)
    ensures r.user.None? && r.accessToken.None? && !r.isAuthenticated && r.error.None? && r.storedRefresh.None?
    ensures r.isLoading == s.isLoading
  {
    s.(user := None, accessToken := None, isAuthenticated := false, error := None, storedRefresh := None)
  }

  /** `clearError`. */
  function ClearError(s: Session): (r: Session)
    ensures r.error.None? && r.(error := s.error) == s
  {
    s.(error := None)
  }

  /** `setError`: also ends loading. */
  function SetError(s: Session, e: Option<string>): (r: Session)
    ensures r.error == e && !r.isLoading
    ensures r.(error := s.error, isLoading := s.isLoading) == s
  {
    s.(error := e, isLoading := false)
  }

  /** `setLoading`. */
  function SetLoading(s: Session, loading: bool): (r: Session)
    ensures r.isLoading == loading && r.(isLoading := s.isLoading) == s
  {
    s.(isLoading := loading)
  }

  /** `localStorage.getItem(REFRESH_TOKEN_KEY)`. */
  function GetRefreshToken(s: Session): Option<string> {
    s.storedRefresh
  }

  /** `setRefreshToken`. */
  function SetRefreshToken(s: Session, token: string): (r: Session)
    ensures GetRefreshToken(r) == Some(token) && r.(storedRefresh := s.storedRefresh) == s
  {
    s.(storedRefresh := Some(token))
  }

  /** `removeRefreshToken`. */
  function RemoveRefreshToken(s: Session): (r: Session)
    ensures GetRefreshToken(r).None? && r.(storedRefresh := s.storedRefresh) == s
  {
    s.(storedRefresh := None)
  }

  /** Storing a token and reading it back gives the token; removing it after
      storing leaves nothing, whatever was there before. */
  lemma StorageRoundTrip(s: Session, token: string)
    ensures GetRefreshToken(SetRefreshToken(s, token)) == Some(token)
    ensures RemoveRefreshToken(SetRefreshToken(s, token)) == RemoveRefreshToken(s)
  {
  }

  /** One call of a store action. */
  datatype Action =
    | DoSetAccessToken(token: string)
    | DoSetUser(user: User, token: string)
    | DoLogout
    | DoClearError
    | DoSetError(e: Option<string>)
    | DoSetLoading(loading: bool)
    | DoSetRefreshToken(refresh: string)
    | DoRemoveRefreshToken

  function Apply(s: Session, a: Action): Session {
    match a
    case DoSetAccessToken(t) => SetAccessToken(s, t)
    case DoSetUser(u, t) => SetUser(s, u, t)
    case DoLogout => LogoutStore(s)
    case DoClearError => ClearError(s)
    case DoSetError(e) => SetError(s, e)
    case DoSetLoading(l) => SetLoading(s, l)
    case DoSetRefreshToken(t) => SetRefreshToken(s, t)
    case DoRemoveRefreshToken => RemoveRefreshToken(s)
  }

  /** A sequence of actions, applied in order. */
  function Run(s: Session, actions: seq<Action>): Session
    decreases |actions|
  {
    if actions == [] then s else Run(Apply(s, actions[0]), actions[1..])
  }

  /** Every action keeps the store consistent. */
  lemma ApplyKeepsConsistent(s: Session, a: Action)
    requires Consistent(s)
    ensures Consistent(Apply(s, a))
  {
  }

  /** From the initial state, any sequence of actions leaves the store consistent:
      never a user without a token, never a token without the authenticated flag. */
  lemma {:induction false} RunKeepsConsistent(s: Session, actions: seq<Action>)
    requires Consistent(s)
    ensures Consistent(Run(s, actions))
    decreases |actions|
  {
    if actions != [] {
      ApplyKeepsConsistent(s, actions[0]);
      RunKeepsConsistent(Apply(s, actions[0]), actions[1..]);
    }
  }

  /** Whatever happened before, logging out ends in the signed-out state with the
      error cleared; only the loading flag carries over. */
  lemma LogoutResets(actions: seq<Action>)
    ensures var r := LogoutStore(Run(Initial, actions));
            r == Initial.(isLoading := r.isLoading)
  {
  }
}
