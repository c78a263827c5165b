/**
 * The conversion feature's own `AuthService`: it restores a stored user
 * without ever clearing storage, counts any stored token as a session, and
 * leaves storage untouched when a login fails.
 */
module FeatureSession {
  import opened Wrappers
  import opened Strings
  import opened ClientSession

  /** `isAuthenticated()`: a non-empty stored token, whatever the current user. */
  predicate IsAuthenticated(s: Session) {
    Truthy(s.store.token)
  }

  /**
   * The constructor: with a non-empty token and user stored, the current
   * user is the parsed user (or `null`); a user that does not parse makes the
   * constructor throw (`None`). Storage is never written.
   */
  function Restore(store: Store, json: Json): (r: Option<Session>)
    ensures r.None? <==> Truthy(store.token) && Truthy(store.user) && json.parse(store.user.value) == ParseError
    ensures r.Some? ==> r.value.store == store
    ensures r.Some? ==> (r.value.current.Some? <==>
                           Truthy(store.token) && Truthy(store.user) && json.parse(store.user.value).ParsedUser?)
    ensures r.Some? && r.value.current.Some? ==> json.parse(store.user.value) == ParsedUser(r.value.current.value)
  {
    if Truthy(store.token) && Truthy(store.user) then
      match json.parse(store.user.value)
      case ParsedUser(u) => Some(Session(store, Some(u)))
      case ParsedNull => Some(Session(store, None))
      case ParseError => None
    else Some(Session(store, None))
  }

  /**
   * `setAuthData(response)`: a response with a non-empty token and a user is
   * stored; otherwise it throws and nothing changes.
   */
  function SetAuthData(s: Session, response: Option<AuthResponse>, json: Json): (r: Outcome)
    ensures r.failure.None? <==> response.Some? && Truthy(response.value.token) && response.value.user.Some?
    ensures r.failure.None? ==> r.session == SignedIn(json, response.value.token.value, response.value.user.value)
    ensures r.failure.Some? ==> r.session == s
    ensures response.None? ==> r.failure == Some(NullResponse)
  {
    match response
    case None => Outcome(s, Some(NullResponse))
    case Some(AuthResponse(Some(token), Some(user))) =>
      if token != "" then Outcome(SignedIn(json, token, user), None)
      else Outcome(s, Some(InvalidResponse))
    case Some(_) => Outcome(s, Some(InvalidResponse))
  }

  /** `login(credentials)` or `register(credentials)` once the request settles: a failed request is rethrown. */
  function CompleteAuthRequest(s: Session, reply: Result<Option<AuthResponse>>, json: Json): (r: Outcome)
    ensures reply.Throws? ==> r == Outcome(s, Some(RequestFailed(reply.error)))
    ensures reply.Ok? ==> r == SetAuthData(s, reply.value, json)
    ensures r.failure.Some? ==> r.session == s
  {
    match reply
    case Throws(e) => Outcome(s, Some(RequestFailed(e)))
    case Ok(response) => SetAuthData(s, response, json)
  }

  /** A stored response leaves the service authenticated; after `logout()` it is not. */
  lemma SignInThenLogout(s: Session, response: Option<AuthResponse>, json: Json)
    ensures var r := SetAuthData(s, response, json);
            (r.failure.None? ==> IsAuthenticated(r.session)) && !IsAuthenticated(Logout(r.session))
  {
  }

  /** A session survives a reload when `JSON.parse` reads back what `JSON.stringify` wrote. */
  lemma ReloadRestoresSession(s: Session, token: string, user: User, json: Json)
    requires token != ""
    requires json.stringify(user) != ""
    requires json.parse(json.stringify(user)) == ParsedUser(user)
    ensures var r := SetAuthData(s, Some(AuthResponse(Some(token), Some(user))), json);
            r.failure.None? && Restore(r.session.store, json) == Some(r.session)
  {
  }
}
