/**
 * components/conditional-navigation.tsx: whether the navigation bar is
 * rendered, as the chain of early returns on the path and the auth state.
 */
module ConditionalNavigation {
  import Middleware
  import opened Wrappers

  /** Which early return hid the navigation bar. */
  datatype HideReason = AuthPage | TryPage | NotAuthenticated | Loading

  datatype NavDecision = Hidden(reason: HideReason) | Shown

  predicate StartsWith(s: string, prefix: string) {
    prefix <= s
  }

  function Navigation(pathname: string, isAuthenticated: bool, loading: bool): NavDecision {
    if StartsWith(pathname, "/auth/") then Hidden(AuthPage)
    else if pathname == "/try" then Hidden(TryPage)
    else if !isAuthenticated then Hidden(NotAuthenticated)
    else if loading then Hidden(Loading)
    else Shown
  }

  /** The bar is shown exactly when every check passes. */
  lemma ShownIff(pathname: string, isAuthenticated: bool, loading: bool)
    ensures Navigation(pathname, isAuthenticated, loading) == Shown <==>
              !("/auth/" <= pathname) && pathname != "/try" && isAuthenticated && !loading
  {
  }

  /**
   * The reason is the first failing check: an auth page, then "/try", then
   * an unauthenticated user, and only then the loading state.
   */
  lemma HiddenReasonOrder(pathname: string, isAuthenticated: bool, loading: bool)
    ensures "/auth/" <= pathname ==> Navigation(pathname, isAuthenticated, loading) == Hidden(AuthPage)
    ensures pathname == "/try" ==> Navigation(pathname, isAuthenticated, loading) == Hidden(TryPage)
    ensures !("/auth/" <= pathname) && pathname != "/try" && !isAuthenticated ==>
              Navigation(pathname, isAuthenticated, loading) == Hidden(NotAuthenticated)
    ensures !("/auth/" <= pathname) && pathname != "/try" && isAuthenticated && loading ==>
              Navigation(pathname, isAuthenticated, loading) == Hidden(Loading)
  {
  }

  /** A visitor the guard turns away lands on a page without the bar. */
  lemma RedirectTargetHasNoNavigation(url: Middleware.Url, authToken: Option<string>,
                                      isAuthenticated: bool, loading: bool)
    requires Middleware.Guard(url, authToken).Redirect?
    ensures Navigation(Middleware.Guard(url, authToken).target.pathname, isAuthenticated, loading) == Hidden(TryPage)
  {
  }
}
