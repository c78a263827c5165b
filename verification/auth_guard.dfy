/**
 * The client's route guard: it lets an authenticated user through and
 * otherwise signs the user out and redirects to the login page.
 */
module AuthGuard {
  import opened Wrappers
  import opened ClientSession
  import opened CoreSession

  const LoginPath := "/auth/login"

  /** `true`, or the `UrlTree` the router is sent to. */
  datatype Decision = Allow | Redirect(path: string)

  /** The decision and the authentication service's state after it. */
  datatype Guarded = Guarded(session: Session, decision: Decision)

  /** `canActivate()` */
  function CanActivate(s: Session): (r: Guarded)
    ensures r.decision == Allow <==> IsAuthenticated(s)
    ensures r.decision == Allow ==> r.session == s
    ensures r.decision != Allow ==> r.decision == Redirect(LoginPath) && r.session == Session(EmptyStore, None)
  {
    if IsAuthenticated(s) then Guarded(s, Allow)
    else Guarded(Logout(s), Redirect(LoginPath))
  }

  /** `canActivateChild()`: the same decision as `canActivate()`. */
  function CanActivateChild(s: Session): (r: Guarded)
    ensures r.decision == Allow <==> IsAuthenticated(s)
    ensures r.decision == Allow ==> r.session == s
    ensures r.decision != Allow ==> r.decision == Redirect(LoginPath) && r.session == Session(EmptyStore, None)
  {
    CanActivate(s)
  }

  /**
   * The guard's decision is stable: asking again in the state it leaves
   * behind gives the same decision and changes nothing further.
   */
  lemma GuardIsStable(s: Session)
    ensures var g := CanActivate(s);
            CanActivate(g.session) == g
  {
  }

  /** A session restored from storage passes the guard exactly when it restored a user. */
  lemma RestoredSessionPassesIffUser(store: Store, json: Json)
    ensures var r := LoadStoredUser(store, json);
            CanActivate(r).decision == Allow <==> r.current.Some?
  {
    RestoredSessionIsConsistent(store, json);
  }
}
