/**
 * lib/auth.ts: the identity of a request, from the `auth_token` cookie or
 * from an `Authorization` header. `jwt.verify` is the parameter `verify`,
 * None when it throws; both functions answer None instead of throwing.
 */
module Auth {
  import opened Wrappers
  import opened JsStrings
  import opened Http

  /** `AuthUser`: the id and e-mail a verified token carries. */
  datatype AuthUser = AuthUser(id: nat, email: Option<string>)

  /** The claims of a verified token as a user; no user when the id is absent. */
  function UserOfClaims(decoded: Option<Claims>): (r: Option<AuthUser>)
    ensures r.Some? <==> decoded.Some? && decoded.value.id.Some?
    ensures r.Some? ==> r.value == AuthUser(decoded.value.id.value, decoded.value.email)
  {
    if decoded.None? || decoded.value.id.None? then None
    else Some(AuthUser(decoded.value.id.value, decoded.value.email))
  }

  /** `getUserFromCookies`, given the `auth_token` cookie's value if there is one. */
  function UserFromCookie(token: Option<string>, verify: string -> Option<Claims>): Option<AuthUser> {
    if token.None? || token.value == "" then None
    else UserOfClaims(verify(token.value))
  }

  /** The case-insensitive `^Bearer\s+` at the head of a header value. */
  predicate HasBearerPrefix(s: string) {
    |s| >= 7 && ToLower(s[..6]) == "bearer" && IsSpace(s[6])
  }

  /** `authorization.replace(/^Bearer\s+/i, "").trim()`. */
  function HeaderToken(s: string): string {
    Trim(if HasBearerPrefix(s) then TrimStart(s[6..]) else s)
  }

  /** `getUserFromAuthHeader`. */
  function UserFromAuthHeader(authorization: Option<string>, verify: string -> Option<Claims>): Option<AuthUser> {
    if authorization.None? || authorization.value == "" then None
    else UserOfClaims(verify(HeaderToken(authorization.value)))
  }

  /** `cookieUser || headerUser`, as the watchlist and history routes combine them. */
  function RequestUser(cookieUser: Option<AuthUser>, headerUser: Option<AuthUser>): Option<AuthUser> {
    if cookieUser.Some? then cookieUser else headerUser
  }

  /** The identity a route sees for a request carrying this cookie and header. */
  function Authenticate(cookie: Option<string>, authorization: Option<string>,
                        verify: string -> Option<Claims>): Option<AuthUser> {
    RequestUser(UserFromCookie(cookie, verify), UserFromAuthHeader(authorization, verify))
  }

  lemma TrimAfterTrimStart(s: string)
    ensures Trim(TrimStart(s)) == Trim(s)
  {
    var t := TrimStart(s);
    TrimStartRun(s);
    assert SpaceRun(t, 0) == 0;
    assert t[0..] == t;
  }

  /**
   * "Bearer", in any mix of upper and lower case, followed by white space is
   * removed and the rest trimmed.
   */
  lemma BearerStripped(prefix: string, spaces: string, rest: string)
    requires |prefix| == 6 && ToLower(prefix) == "bearer"
    requires |spaces| >= 1 && forall i :: 0 <= i < |spaces| ==> IsSpace(spaces[i])
    ensures HeaderToken(prefix + spaces + rest) == Trim(rest)
  {
    var s := prefix + spaces + rest;
    assert s[..6] == prefix;
    assert HasBearerPrefix(s);
    TrimStartSkipsSpaces(spaces, rest);
    assert s[6..] == spaces + rest;
    TrimAfterTrimStart(rest);
  }

  /**
   * A header holding only the prefix and white space leaves the empty
   * token; `jwt.verify` rejects that, so there is no user.
   */
  lemma BlankBearerHeader(prefix: string, spaces: string, verify: string -> Option<Claims>)
    requires |prefix| == 6 && ToLower(prefix) == "bearer"
    requires |spaces| >= 1 && forall i :: 0 <= i < |spaces| ==> IsSpace(spaces[i])
    requires verify("").None?
    ensures UserFromAuthHeader(Some(prefix + spaces), verify).None?
  {
    BlankBearerToken(prefix, spaces, "");
    NoUserForEmptyToken(prefix + spaces, verify);
  }

  lemma BlankBearerToken(prefix: string, spaces: string, empty: string)
    requires empty == ""
    requires |prefix| == 6 && ToLower(prefix) == "bearer"
    requires |spaces| >= 1 && forall i :: 0 <= i < |spaces| ==> IsSpace(spaces[i])
    ensures HeaderToken(prefix + spaces) == ""
  {
    BearerStripped(prefix, spaces, empty);
    AppendEmpty(prefix + spaces, empty);
  }

  lemma NoUserForEmptyToken(h: string, verify: string -> Option<Claims>)
    requires h != "" && HeaderToken(h) == "" && verify("").None?
    ensures UserFromAuthHeader(Some(h), verify).None?
  {
  }

  lemma AppendEmpty(s: string, empty: string)
    requires empty == ""
    ensures s + empty == s
  {
  }

  /** A header without the prefix is the token once trimmed. */
  lemma NoBearerTrimmedOnly(s: string)
    requires !HasBearerPrefix(s)
    ensures HeaderToken(s) == Trim(s)
  {
  }

  /**
   * The header identity: none for a missing or empty header or a token that
   * fails verification or has no id; otherwise exactly the token's id and e-mail.
   */
  lemma AuthHeaderOutcome(authorization: Option<string>, verify: string -> Option<Claims>)
    ensures authorization.None? || authorization.value == "" ==> UserFromAuthHeader(authorization, verify).None?
    ensures authorization.Some? && authorization.value != "" ==>
      var decoded := verify(HeaderToken(authorization.value));
      (UserFromAuthHeader(authorization, verify).None? <==> decoded.None? || decoded.value.id.None?)
      && (UserFromAuthHeader(authorization, verify).Some? ==>
            UserFromAuthHeader(authorization, verify).value == AuthUser(decoded.value.id.value, decoded.value.email))
  {
  }

  /** The cookie identity: the same ladder without any prefix handling. */
  lemma CookieOutcome(token: Option<string>, verify: string -> Option<Claims>)
    ensures token.None? || token.value == "" ==> UserFromCookie(token, verify).None?
    ensures token.Some? && token.value != "" ==>
      (UserFromCookie(token, verify).None? <==> verify(token.value).None? || verify(token.value).value.id.None?)
      && (UserFromCookie(token, verify).Some? ==>
            UserFromCookie(token, verify).value == AuthUser(verify(token.value).value.id.value, verify(token.value).value.email))
  {
  }

  /**
   * A valid cookie decides the identity whatever the header says; only
   * without one is the header consulted.
   */
  lemma CookieTakesPrecedence(cookie: Option<string>, authorization: Option<string>, verify: string -> Option<Claims>)
    ensures UserFromCookie(cookie, verify).Some? ==>
              Authenticate(cookie, authorization, verify) == UserFromCookie(cookie, verify)
    ensures UserFromCookie(cookie, verify).None? ==>
              Authenticate(cookie, authorization, verify) == UserFromAuthHeader(authorization, verify)
    ensures Authenticate(cookie, authorization, verify).None? <==>
              UserFromCookie(cookie, verify).None? && UserFromAuthHeader(authorization, verify).None?
  {
  }
}
