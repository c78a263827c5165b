/**
 * The two client authentication services side by side: over the same
 * storage, the feature service considers a session signed in whenever the
 * core one does, but not conversely.
 */
module SessionComparison {
  import opened Wrappers
  import opened ClientSession
  import CoreSession
  import FeatureSession

  /** Whatever the core service counts as signed in, the feature service does too. */
  lemma CoreSignedInImpliesFeatureSignedIn(s: Session)
    requires CoreSession.IsAuthenticated(s)
    ensures FeatureSession.IsAuthenticated(s)
  {
  }

  /**
   * A stored token without a stored user: the feature service restores a
   * signed-in session with no current user, while the core service clears
   * storage and is signed out.
   */
  lemma TokenWithoutUser(token: string, json: Json)
    requires token != ""
    ensures var store := Store(Some(token), None);
            && FeatureSession.Restore(store, json) == Some(Session(store, None))
            && FeatureSession.IsAuthenticated(Session(store, None))
            && CoreSession.LoadStoredUser(store, json) == Session(EmptyStore, None)
            && !CoreSession.IsAuthenticated(CoreSession.LoadStoredUser(store, json))
  {
  }

  /** An invalid login response clears the core service's storage but not the feature service's. */
  lemma InvalidResponseHandling(s: Session, response: AuthResponse, json: Json)
    requires response.token.None? || response.user.None?
    ensures CoreSession.HandleAuthResponse(s, Some(response), json).session.store == EmptyStore
    ensures FeatureSession.SetAuthData(s, Some(response), json).session == s
  {
  }
}
