/**
 * The core `AuthService` of the client: it restores the session from
 * storage when created, clearing storage whenever the stored entries do not
 * make a session, and clears it again on an invalid login response.
 */
module CoreSession {
  import opened Wrappers
  import opened Strings
  import opened ClientSession

  /** `getToken()` */
  function GetToken(s: Session): Option<string> {
    s.store.token
  }

  /** `isAuthenticated()`: a non-empty stored token and a current user. */
  predicate IsAuthenticated(s: Session) {
    Truthy(GetToken(s)) && s.current.Some?
  }

  /**
   * The constructor's `loadStoredUser()`, starting with no current user: a
   * non-empty stored user and token restore the parsed user (or `null`);
   * anything else, or a stored user that does not parse, ends in `logout()`.
   */
  function LoadStoredUser(store: Store, json: Json): (r: Session)
    ensures r.store == store || r == Session(EmptyStore, None)
    ensures r.store == store && store != EmptyStore ==>
              && Truthy(store.user) && Truthy(store.token)
              && json.parse(store.user.value) != ParseError
              && (r.current.Some? <==> json.parse(store.user.value).ParsedUser?)
              && (r.current.Some? ==> json.parse(store.user.value) == ParsedUser(r.current.value))
    ensures Truthy(store.user) && Truthy(store.token) && json.parse(store.user.value).ParsedUser? ==>
              r == Session(store, Some(json.parse(store.user.value).user))
    ensures Truthy(store.user) && Truthy(store.token) && json.parse(store.user.value).ParsedNull? ==>
              r == Session(store, None)
    ensures !(Truthy(store.user) && Truthy(store.token)) ==> r == Session(EmptyStore, None)
  {
    var initial := Session(store, None);
    if Truthy(store.user) && Truthy(store.token) then
      match json.parse(store.user.value)
      case ParsedUser(u) => Session(store, Some(u))
      case ParsedNull => Session(store, None)
      case ParseError => Logout(initial)
    else Logout(initial)
  }

  /**
   * `handleAuthResponse(response)`, the `tap` of `login` and `register`: a
   * response with a non-empty token and a user is stored; any other response
   * clears the session and throws.
   */
  function HandleAuthResponse(s: Session, response: Option<AuthResponse>, json: Json): (r: Outcome)
    ensures r.failure.None? <==> response.Some? && Truthy(response.value.token) && response.value.user.Some?
    ensures r.failure.None? ==> r.session == SignedIn(json, response.value.token.value, response.value.user.value)
    ensures r.failure.Some? ==> r.failure == Some(InvalidResponse) && r.session == Session(EmptyStore, None)
  {
    match response
    case Some(AuthResponse(Some(token), Some(user))) =>
      if token != "" then Outcome(SignedIn(json, token, user), None)
      else Outcome(Logout(s), Some(InvalidResponse))
    case _ => Outcome(Logout(s), Some(InvalidResponse))
  }

  /**
   * `login(credentials)` or `register(credentials)` once the request settles:
   * a failed request propagates its error before the `tap` runs, leaving the
   * state untouched.
   */
  function CompleteAuthRequest(s: Session, reply: Result<Option<AuthResponse>>, json: Json): (r: Outcome)
    ensures reply.Throws? ==> r == Outcome(s, Some(RequestFailed(reply.error)))
    ensures reply.Ok? ==> r == HandleAuthResponse(s, reply.value, json)
  {
    match reply
    case Throws(e) => Outcome(s, Some(RequestFailed(e)))
    case Ok(response) => HandleAuthResponse(s, response, json)
  }

  /** A stored response leaves the service authenticated; a rejected one leaves it signed out. */
  lemma AuthenticatedIffResponseAccepted(s: Session, response: Option<AuthResponse>, json: Json)
    ensures var r := HandleAuthResponse(s, response, json);
            IsAuthenticated(r.session) <==> r.failure.None?
  {
  }

  /** After `logout()` the service is not authenticated and holds no token. */
  lemma LogoutSignsOut(s: Session)
    ensures !IsAuthenticated(Logout(s)) && GetToken(Logout(s)).None?
  {
  }

  /**
   * A restored session is authenticated exactly when it has a current user:
   * whenever a user is restored, so is a non-empty token.
   */
  lemma RestoredSessionIsConsistent(store: Store, json: Json)
    ensures var r := LoadStoredUser(store, json);
            IsAuthenticated(r) <==> r.current.Some?
  {
  }

  /** Loading is idempotent: loading again from the storage it leaves changes nothing. */
  lemma LoadStoredUserIsIdempotent(store: Store, json: Json)
    ensures var r := LoadStoredUser(store, json);
            LoadStoredUser(r.store, json) == r
  {
  }

  /**
   * A session survives a reload: when `JSON.parse` reads back what
   * `JSON.stringify` wrote, a new service created over the storage a
   * successful response left behind restores exactly that session.
   */
  lemma ReloadRestoresSession(s: Session, token: string, user: User, json: Json)
    requires token != ""
    requires json.stringify(user) != ""
    requires json.parse(json.stringify(user)) == ParsedUser(user)
    ensures var r := HandleAuthResponse(s, Some(AuthResponse(Some(token), Some(user))), json);
            r.failure.None? && LoadStoredUser(r.session.store, json) == r.session
  {
  }
}
