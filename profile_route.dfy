/**
 * GET /api/profile (app/api/profile/route.ts): read the `Cookie` header,
 * verify the `auth_token` session token and return the user's profile with
 * defaults filled in. `jwt.verify` is the parameter `verify` (None when it
 * throws); the clock is `now`.
 */
module ProfileRoute {
  import opened Wrappers
  import opened JsStrings
  import opened Users
  import opened Http

  const ErrNoCookieHeader := "No authentication cookie found"
  const ErrNoToken := "Authentication token not found"
  const ErrBadToken := "Invalid or expired token"
  const ErrNoId := "Invalid token structure"
  const ErrNoUser := "User not found"

  /** The subscription and token allowance shown when the user has none. */
  const DefaultSubscription := Subscription("basic", "active")
  const DefaultDailyLimit: int := 10

  // ---------------------------------------------------------------------------
  // Cookie header parsing.

  /**
   * One `;`-separated piece: trimmed, split on '=', the first part the key
   * and the second the value (anything after a second '=' is dropped); no
   * pair when either is empty or there is no '='.
   */
  function CookiePair(piece: string): Option<(string, string)> {
    var parts := Split(Trim(piece), '=');
    if |parts| >= 2 && parts[0] != "" && parts[1] != "" then Some((parts[0], parts[1])) else None
  }

  /** Each piece's pair, in order. */
  function PairsOf(pieces: seq<string>): (ps: seq<Option<(string, string)>>)
    ensures |ps| == |pieces|
    ensures forall i :: 0 <= i < |pieces| ==> ps[i] == CookiePair(pieces[i])
  {
    seq(|pieces|, i requires 0 <= i < |pieces| => CookiePair(pieces[i]))
  }

  /** The `reduce`: left to right, each pair assigned into the accumulator. */
  function Fold(ps: seq<Option<(string, string)>>): map<string, string>
    decreases |ps|
  {
    if |ps| == 0 then map[]
    else
      var acc := Fold(ps[..|ps| - 1]);
      match ps[|ps| - 1]
      case Some((k, v)) => acc[k := v]
      case None => acc
  }

  function CookieHeaderMap(header: string): map<string, string> {
    Fold(PairsOf(Split(header, ';')))
  }

  /** The parsing loop: `acc[key] = value` for every well-formed piece. */
  method ParseCookies(header: string) returns (cookies: map<string, string>)
    ensures cookies == CookieHeaderMap(header)
  {
    var pieces := Split(header, ';');
    ghost var ps := PairsOf(pieces);
    cookies := map[];
    var i := 0;
    while i < |pieces|
      invariant 0 <= i <= |pieces|
      invariant cookies == Fold(ps[..i])
    {
      var parts := Split(Trim(pieces[i]), '=');
      FoldSnoc(ps, i);
      if |parts| >= 2 && parts[0] != "" && parts[1] != "" {
        cookies := cookies[parts[0] := parts[1]];
      }
      i := i + 1;
    }
    assert ps[..i] == ps;
  }

  /** Folding one more piece assigns its pair, if it has one. */
  lemma FoldSnoc(ps: seq<Option<(string, string)>>, i: nat)
    requires i < |ps|
    ensures Fold(ps[..i + 1]) == if ps[i].Some? then Fold(ps[..i])[ps[i].value.0 := ps[i].value.1] else Fold(ps[..i])
  {
    assert ps[..i + 1][..i] == ps[..i];
  }

  predicate PairFor(p: Option<(string, string)>, key: string) {
    p.Some? && p.value.0 == key
  }

  /** A key is present exactly when some piece is a pair for it. */
  lemma {:induction false} CookieKeyPresent(ps: seq<Option<(string, string)>>, key: string)
    ensures key in Fold(ps) <==> exists i :: 0 <= i < |ps| && PairFor(ps[i], key)
    decreases |ps|
  {
    if |ps| > 0 {
      var n := |ps| - 1;
      var init := ps[..n];
      CookieKeyPresent(init, key);
      if key in Fold(ps) {
        if !PairFor(ps[n], key) {
          assert key in Fold(init);
          var i :| 0 <= i < |init| && PairFor(init[i], key);
          assert PairFor(ps[i], key);
        }
      } else {
        assert !PairFor(ps[n], key);
        forall i | 0 <= i < |ps| ensures !PairFor(ps[i], key) {
          if i < n { assert ps[i] == init[i]; }
        }
      }
    }
  }

  /** The value of a key is the one from the last piece that is a pair for it:
      a later duplicate overwrites an earlier one. */
  lemma {:induction false} CookieLastWins(ps: seq<Option<(string, string)>>, key: string, i: nat)
    requires i < |ps| && PairFor(ps[i], key)
    requires forall j :: i < j < |ps| ==> !PairFor(ps[j], key)
    ensures key in Fold(ps) && Fold(ps)[key] == ps[i].value.1
    decreases |ps|
  {
    var n := |ps| - 1;
    var init := ps[..n];
    if i < n {
      assert init[i] == ps[i];
      assert forall j :: i < j < |init| ==> init[j] == ps[j];
      CookieLastWins(init, key, i);
      assert !PairFor(ps[n], key);
    }
  }

  /** A piece with a second '=' keeps only the text between the first two. */
  lemma ExtraEqualsDropped(key: string, value: string, rest: string)
    requires key != "" && value != "" && '=' !in key && '=' !in value
    requires !IsSpace(key[0]) && (rest == [] || !IsSpace(rest[|rest| - 1]))
    ensures CookiePair(key + "=" + value + "=" + rest) == Some((key, value))
  {
    var piece := key + "=" + value + "=" + rest;
    var tail := value + "=" + rest;
    assert piece[|piece| - 1] == if rest == [] then '=' else rest[|rest| - 1];
    TrimOfNoSpace(piece);
    Assoc(key + "=", value + "=", rest);
    Assoc(key + "=", value, "=");
    assert piece == key + "=" + tail;
    SplitPrefix(key, '=', tail);
    SplitPrefix(value, '=', rest);
    var parts := Split(piece, '=');
    assert parts == [key] + ([value] + Split(rest, '='));
    assert parts[0] == key && parts[1] == value;
  }

  // ---------------------------------------------------------------------------
  // The response ladder.

  datatype ProfileView = ProfileView(
    firstName: string, lastName: string, email: string, dob: string, avatar: string,
    subscription: Subscription, tokens: TokenUsage)

  datatype ProfileBody = Failure(error: string) | Profile(user: ProfileView)

  function ProfileOf(u: UserDoc, now: int): ProfileView {
    ProfileView(Or(Or(u.firstName, u.username), ""), Or(u.lastName, ""), u.email, u.dob, u.avatar,
                u.subscription.GetOr(DefaultSubscription),
                u.tokens.GetOr(TokenUsage(DefaultDailyLimit, 0, now, 0)))
  }

  /** The handler's checks after the header has been read: `cookies` is None
      when there is no (or an empty) `Cookie` header. */
  function ProfileResponse(cookies: Option<map<string, string>>, verify: string -> Option<Claims>,
                           docs: seq<UserDoc>, now: int): Response<ProfileBody> {
    if cookies.None? then Response(401, Failure(ErrNoCookieHeader), None)
    else if AuthCookieName !in cookies.value then Response(401, Failure(ErrNoToken), None)
    else
      var decoded := verify(cookies.value[AuthCookieName]);
      if decoded.None? then Response(401, Failure(ErrBadToken), None)
      else if decoded.value.id.None? then Response(401, Failure(ErrNoId), None)
      else
        match FindById(docs, decoded.value.id.value)
        case None => Response(404, Failure(ErrNoUser), None)
        case Some(u) => Response(200, Profile(ProfileOf(u, now)), None)
  }

  /** The handler. */
  method GetProfile(cookieHeader: Option<string>, verify: string -> Option<Claims>, docs: seq<UserDoc>, now: int)
    returns (r: Response<ProfileBody>)
    ensures cookieHeader.None? || cookieHeader.value == "" ==> r == ProfileResponse(None, verify, docs, now)
    ensures cookieHeader.Some? && cookieHeader.value != "" ==>
              r == ProfileResponse(Some(CookieHeaderMap(cookieHeader.value)), verify, docs, now)
  {
    if cookieHeader.None? || cookieHeader.value == "" {
      return Response(401, Failure(ErrNoCookieHeader), None);
    }
    var cookies := ParseCookies(cookieHeader.value);
    r := ProfileResponse(Some(cookies), verify, docs, now);
  }

  /**
   * The failure ladder in order: no header, then no `auth_token` (a different
   * message), then a token that fails verification, then one without an id
   * (all 401), then an unknown id (404).
   */
  lemma ProfileFailureLadder(cookies: Option<map<string, string>>, verify: string -> Option<Claims>,
                             docs: seq<UserDoc>, now: int)
    ensures var r := ProfileResponse(cookies, verify, docs, now);
      (cookies.None? ==> r == Response(401, Failure("No authentication cookie found"), None))
      && (cookies.Some? && "auth_token" !in cookies.value ==> r == Response(401, Failure("Authentication token not found"), None))
      && (cookies.Some? && "auth_token" in cookies.value && verify(cookies.value["auth_token"]).None? ==>
            r == Response(401, Failure("Invalid or expired token"), None))
      && (cookies.Some? && "auth_token" in cookies.value && verify(cookies.value["auth_token"]).Some?
          && verify(cookies.value["auth_token"]).value.id.None? ==>
            r == Response(401, Failure("Invalid token structure"), None))
      && (cookies.Some? && "auth_token" in cookies.value && verify(cookies.value["auth_token"]).Some?
          && verify(cookies.value["auth_token"]).value.id.Some?
          && FindById(docs, verify(cookies.value["auth_token"]).value.id.value).None? ==>
            r == Response(404, Failure("User not found"), None))
  {
  }

  /** A verified token whose id is that of a stored user yields that user's
      profile, whatever the token's other claims: the first name falls back to
      the username, and a missing subscription or token allowance is replaced
      by the defaults. */
  lemma ProfileSuccess(cookies: map<string, string>, verify: string -> Option<Claims>, docs: seq<UserDoc>,
                       now: int, i: nat)
    requires IdsAreIndices(docs) && i < |docs|
    requires "auth_token" in cookies && verify(cookies["auth_token"]).Some?
    requires verify(cookies["auth_token"]).value.id == Some(i)
    ensures var r := ProfileResponse(Some(cookies), verify, docs, now);
      var u := docs[i];
      r.status == 200 && r.body.Profile? && r.cookie.None?
      && r.body.user.email == u.email
      && r.body.user.firstName == (if u.firstName != "" then u.firstName else u.username)
      && r.body.user.lastName == u.lastName
      && r.body.user.dob == u.dob && r.body.user.avatar == u.avatar
      && r.body.user.subscription == (if u.subscription.Some? then u.subscription.value else Subscription("basic", "active"))
      && r.body.user.tokens == (if u.tokens.Some? then u.tokens.value else TokenUsage(10, 0, now, 0))
  {
    FindStoredById(docs, i);
  }
}
