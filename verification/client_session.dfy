/**
 * What the client's two authentication services share: the two
 * `localStorage` entries they keep the session in, the current user they
 * publish, and `logout`.
 */
module ClientSession {
  import opened Wrappers

  /** A signed-in user as the server describes it. */
  datatype User = User(id: string, email: string, createdAt: Option<string>)

  /** What `JSON.parse` makes of a stored user: a user object, `null`, or a thrown `SyntaxError`. */
  datatype Parsed = ParsedUser(user: User) | ParsedNull | ParseError

  /** `JSON.stringify` and `JSON.parse` on users, which the model takes as parameters. */
  datatype Json = Json(stringify: User -> string, parse: string -> Parsed)

  /** The `token` and `user` entries of `localStorage`; `None` is an absent entry. */
  datatype Store = Store(token: Option<string>, user: Option<string>)

  const EmptyStore := Store(None, None)

  /** A service's state: the storage it reads and writes, and `currentUserSubject.value`. */
  datatype Session = Session(store: Store, current: Option<User>)

  /** The body of a login or register response; either field may be missing. */
  datatype AuthResponse = AuthResponse(token: Option<string>, user: Option<User>)

  /** Why an authentication call threw. */
  datatype Failure =
    | InvalidResponse        // Error('Invalid authentication response')
    | NullResponse           // a TypeError from reading a field of a null body
    | RequestFailed(error: Thrown)  // the HTTP call itself failed and its error is rethrown

  /** The state after an authentication call, and what it threw, if anything. */
  datatype Outcome = Outcome(session: Session, failure: Option<Failure>)

  /** `logout()` (the same in both services): both entries removed, no current user. */
  function Logout(s: Session): (r: Session)
    ensures r.store.token.None? && r.store.user.None? && r.current.None?
  {
    Session(EmptyStore, None)
  }

  /** The state after a response with `token` and `user` has been stored. */
  function SignedIn(json: Json, token: string, user: User): (r: Session)
    ensures r.store.token == Some(token) && r.current == Some(user)
    ensures r.store.user.Some? && json.parse(r.store.user.value) == json.parse(json.stringify(user))
  {
    Session(Store(Some(token), Some(json.stringify(user))), Some(user))
  }
}
