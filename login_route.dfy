/**
 * POST /api/login (app/api/login/route.ts): password login.
 * The user table is the collection's current documents; `bcrypt.compare`
 * is the parameter `passwordMatches(plain, hashed)`. A missing request
 * field is the empty string.
 */
module LoginRoute {
  import opened Wrappers
  import opened JsStrings
  import opened Users
  import opened Http

  /** `expiresIn: "1h"` and the cookie's `maxAge`, in seconds. */
  const LoginSessionSeconds: nat := 3600

  const MsgMissing := "Missing email or password"
  const MsgInvalidCredentials := "Invalid credentials"
  const MsgLoginOk := "Login successful"

  datatype LoginRequest = LoginRequest(email: string, password: string)

  datatype LoginUser = LoginUser(id: nat, email: string, firstName: string, lastName: string, dob: string, avatar: string)

  datatype LoginBody = Message(message: string) | LoggedIn(message: string, user: LoginUser)

  function Login(docs: seq<UserDoc>, passwordMatches: (string, string) -> bool, req: LoginRequest): Response<LoginBody> {
    if req.email == "" || req.password == "" then
      Response(400, Message(MsgMissing), None)
    else
      match FindByEmail(docs, req.email)
      case None => Response(401, Message(MsgInvalidCredentials), None)
      case Some(u) =>
        if !passwordMatches(req.password, u.password) then
          Response(401, Message(MsgInvalidCredentials), None)
        else
          var token := SessionToken(Claims(Some(u.id), Some(u.email)), LoginSessionSeconds);
          Response(200,
                   LoggedIn(MsgLoginOk, LoginUser(u.id, u.email, Or(u.firstName, u.username), Or(u.lastName, ""), u.dob, u.avatar)),
                   Some(AuthCookie(token, LoginSessionSeconds)))
  }

  /** A missing e-mail or password is a 400 and sets no cookie. */
  lemma LoginMissingField(docs: seq<UserDoc>, passwordMatches: (string, string) -> bool, req: LoginRequest)
    requires req.email == "" || req.password == ""
    ensures Login(docs, passwordMatches, req) == Response(400, Message(MsgMissing), None)
  {
  }

  /**
   * An unknown e-mail and a wrong password give the identical 401 response,
   * so the answer never tells whether the address is registered.
   */
  lemma LoginDoesNotRevealAccounts(unknown: seq<UserDoc>, known: seq<UserDoc>,
                                   passwordMatches: (string, string) -> bool, req: LoginRequest)
    requires req.email != "" && req.password != ""
    requires FindByEmail(unknown, req.email).None?
    requires FindByEmail(known, req.email).Some?
    requires !passwordMatches(req.password, FindByEmail(known, req.email).value.password)
    ensures Login(unknown, passwordMatches, req) == Login(known, passwordMatches, req)
    ensures Login(unknown, passwordMatches, req) == Response(401, Message(MsgInvalidCredentials), None)
  {
  }

  /**
   * A login succeeds exactly when the e-mail is registered and the password
   * matches; the token then carries that user's id and e-mail for one hour,
   * in an HTTP-only cookie on path "/", and the first name falls back to the
   * username.
   */
  lemma LoginSucceedsIff(docs: seq<UserDoc>, passwordMatches: (string, string) -> bool, req: LoginRequest)
    ensures var r := Login(docs, passwordMatches, req);
      r.status == 200 <==>
        req.email != "" && req.password != "" && FindByEmail(docs, req.email).Some?
        && passwordMatches(req.password, FindByEmail(docs, req.email).value.password)
    ensures var r := Login(docs, passwordMatches, req);
      r.status == 200 ==>
        var u := FindByEmail(docs, req.email).value;
        u.email == req.email
        && r.cookie == Some(Cookie("auth_token", SessionToken(Claims(Some(u.id), Some(u.email)), 3600), true, "lax", 3600, "/"))
        && r.body.LoggedIn? && r.body.user.id == u.id
        && r.body.user.firstName == (if u.firstName != "" then u.firstName else u.username)
        && r.body.user.lastName == u.lastName
    ensures var r := Login(docs, passwordMatches, req);
      r.status != 200 ==> r.cookie.None? && r.body.Message?
  {
  }
}
