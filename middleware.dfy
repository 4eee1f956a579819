/**
 * middleware.ts: the request guard in front of the home page. Only the
 * cookie's presence counts; the token is not verified here.
 */
module Middleware {
  import opened Wrappers

  /** The request URL: its path and everything else, kept as is on a redirect. */
  datatype Url = Url(pathname: string, rest: string)

  datatype Decision = Next | Redirect(target: Url)

  const ProtectedPaths: seq<string> := ["/"]
  const TryPath := "/try"

  /** `middleware(request)`, given the `auth_token` cookie's value if any. */
  function Guard(url: Url, authToken: Option<string>): Decision {
    if url.pathname in ProtectedPaths && (authToken.None? || authToken.value == "") then
      Redirect(url.(pathname := TryPath))
    else Next
  }

  /**
   * A redirect happens exactly on the path "/" without a non-empty cookie,
   * and goes to the same URL with the path "/try".
   */
  lemma GuardRedirectsIff(url: Url, authToken: Option<string>)
    ensures Guard(url, authToken).Redirect? <==>
              url.pathname == "/" && (authToken.None? || authToken.value == "")
    ensures Guard(url, authToken).Redirect? ==>
              Guard(url, authToken).target == Url("/try", url.rest)
  {
  }

  /** Every path other than "/" passes, whatever the cookie. */
  lemma OnlyRootProtected(url: Url, authToken: Option<string>)
    requires url.pathname != "/"
    ensures Guard(url, authToken) == Next
  {
  }

  /** Any two non-empty cookie values get the same decision: nothing is verified. */
  lemma TokenNotInspected(url: Url, t1: string, t2: string)
    requires t1 != "" && t2 != ""
    ensures Guard(url, Some(t1)) == Guard(url, Some(t2)) == Next
  {
  }
}
