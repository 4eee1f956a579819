/**
 * POST /api/verify-otp (app/api/verify-otp/route.ts): consume the code, then
 * finish a registration (insert the pending user) or a login (look the user
 * up), and set a 24-hour session cookie. `bcrypt.hash` is `hash`; the
 * clock is `now`.
 */
module VerifyOtpRoute {
  import opened Wrappers
  import opened JsStrings
  import opened Users
  import opened Http
  import opened OtpService

  /** `expiresIn: "24h"` and the cookie's `maxAge`, in seconds. */
  const OtpSessionSeconds: nat := 86400

  const MsgRequired := "Email and OTP are required"
  const MsgNoUserData := "User data not found"
  const MsgRegistrationOk := "Registration successful"
  const MsgUserNotFound := "User not found"
  const MsgLoginOk := "Login successful"
  const MsgInvalidType := "Invalid verification type"

  datatype VerifyOtpRequest = VerifyOtpRequest(email: string, otp: string, kind: Option<string>)

  datatype SessionUser = SessionUser(
    id: nat, email: string, firstName: string, lastName: string, dob: string, avatar: string,
    isEmailVerified: bool)

  datatype VerifyBody = Notice(message: string) | Welcome(message: string, success: bool, user: SessionUser)

  function KindOf(req: VerifyOtpRequest): string {
    req.kind.GetOr("registration")
  }

  /** The document a completed registration inserts: built from the pending payload. */
  function RegisteredUser(ud: PendingUser, hash: string -> string, now: int): NewUser {
    NewUser(ud.username, ud.email, hash(ud.password),
            Or(ud.firstName, ""), Or(ud.lastName, ""), Or(ud.dob, ""), Or(ud.avatar, ""), true, now)
  }

  function Session(id: nat, email: string): Cookie {
    AuthCookie(SessionToken(Claims(Some(id), Some(email)), OtpSessionSeconds), OtpSessionSeconds)
  }

  /** The response, the OTP map and the user documents afterwards. */
  function VerifyOtpTransition(m: Storage, docs: seq<UserDoc>, hash: string -> string, req: VerifyOtpRequest, now: int)
    : (Response<VerifyBody>, Storage, seq<UserDoc>)
  {
    if req.email == "" || req.otp == "" then
      (Response(400, Notice(MsgRequired), None), m, docs)
    else
      var (v, m') := VerifyTransition(m, req.email, req.otp, now);
      if !v.success then
        (Response(400, Notice(v.message), None), m', docs)
      else if KindOf(req) == "registration" then
        if v.userData.None? then
          (Response(400, Notice(MsgNoUserData), None), m', docs)
        else
          var ud := v.userData.value;
          var id := |docs|;
          var u := RegisteredUser(ud, hash, now);
          (Response(201,
                    Welcome(MsgRegistrationOk, true,
                            SessionUser(id, ud.email, u.firstName, u.lastName, u.dob, u.avatar, true)),
                    Some(Session(id, ud.email))),
           m', docs + [Stored(u, id)])
      else if KindOf(req) == "login" then
        match FindByEmail(docs, req.email)
        case None => (Response(404, Notice(MsgUserNotFound), None), m', docs)
        case Some(u) =>
          (Response(200,
                    Welcome(MsgLoginOk, true,
                            SessionUser(u.id, u.email, Or(Or(u.firstName, u.username), ""), Or(u.lastName, ""),
                                        Or(u.dob, ""), Or(u.avatar, ""), u.isEmailVerified)),
                    Some(Session(u.id, u.email))),
           m', docs)
      else
        (Response(400, Notice(MsgInvalidType), None), m', docs)
  }

  /** The handler. */
  method VerifyOtp(store: OtpStore, users: UserCollection, hash: string -> string, req: VerifyOtpRequest, now: int)
    returns (r: Response<VerifyBody>)
    requires users.Valid()
    modifies store, users
    ensures users.Valid()
    ensures (r, store.storage, users.docs) == VerifyOtpTransition(old(store.storage), old(users.docs), hash, req, now)
  {
    var kind := if req.kind.Some? then req.kind.value else "registration";
    if req.email == "" || req.otp == "" {
      return Response(400, Notice(MsgRequired), None);
    }
    var v := store.VerifyOtp(req.email, req.otp, now);
    if !v.success {
      return Response(400, Notice(v.message), None);
    }
    if kind == "registration" {
      if v.userData.None? {
        return Response(400, Notice(MsgNoUserData), None);
      }
      var ud := v.userData.value;
      var hashed := hash(ud.password);
      var id := users.InsertOne(NewUser(ud.username, ud.email, hashed,
                                        Or(ud.firstName, ""), Or(ud.lastName, ""), Or(ud.dob, ""), Or(ud.avatar, ""),
                                        true, now));
      var user := SessionUser(id, ud.email, Or(ud.firstName, ""), Or(ud.lastName, ""), Or(ud.dob, ""), Or(ud.avatar, ""), true);
      return Response(201, Welcome(MsgRegistrationOk, true, user), Some(Session(id, ud.email)));
    }
    if kind == "login" {
      var found := users.FindOne(req.email);
      if found.None? {
        return Response(404, Notice(MsgUserNotFound), None);
      }
      var u := found.value;
      var user := SessionUser(u.id, u.email, Or(Or(u.firstName, u.username), ""), Or(u.lastName, ""),
                              Or(u.dob, ""), Or(u.avatar, ""), u.isEmailVerified);
      return Response(200, Welcome(MsgLoginOk, true, user), Some(Session(u.id, u.email)));
    }
    r := Response(400, Notice(MsgInvalidType), None);
  }

  /** A missing e-mail or code is a 400 that touches neither the codes nor the users. */
  lemma VerifyMissingField(m: Storage, docs: seq<UserDoc>, hash: string -> string, req: VerifyOtpRequest, now: int)
    requires req.email == "" || req.otp == ""
    ensures VerifyOtpTransition(m, docs, hash, req, now) == (Response(400, Notice("Email and OTP are required"), None), m, docs)
  {
  }

  /**
   * A rejected code is a 400 carrying the store's own message; the store's
   * own transition (deletion or a counted attempt) still happens, and no
   * user is inserted.
   */
  lemma VerifyRejectedCode(m: Storage, docs: seq<UserDoc>, hash: string -> string, req: VerifyOtpRequest, now: int)
    requires req.email != "" && req.otp != ""
    requires !VerifyTransition(m, req.email, req.otp, now).0.success
    ensures var (v, m') := VerifyTransition(m, req.email, req.otp, now);
      VerifyOtpTransition(m, docs, hash, req, now) == (Response(400, Notice(v.message), None), m', docs)
  {
  }

  /**
   * An accepted code is consumed before the purpose is looked at: whatever
   * follows, the record is gone afterwards, even for an unknown purpose,
   * which is a 400.
   */
  lemma CodeConsumedBeforeDispatch(m: Storage, docs: seq<UserDoc>, hash: string -> string, req: VerifyOtpRequest, now: int)
    requires req.email != "" && req.otp != ""
    requires VerifyTransition(m, req.email, req.otp, now).0.success
    ensures req.email !in VerifyOtpTransition(m, docs, hash, req, now).1
    ensures KindOf(req) != "registration" && KindOf(req) != "login" ==>
      VerifyOtpTransition(m, docs, hash, req, now) == (Response(400, Notice("Invalid verification type"), None), m - {req.email}, docs)
  {
  }

  /** A registration code stored without a payload is a 400 "User data not found". */
  lemma RegistrationWithoutPayload(m: Storage, docs: seq<UserDoc>, hash: string -> string, req: VerifyOtpRequest, now: int)
    requires req.email != "" && req.otp != "" && KindOf(req) == "registration"
    requires req.email in m && !Expired(m[req.email], now) && m[req.email].attempts < MaxFailedAttempts
    requires m[req.email].otp == req.otp && m[req.email].userData.None?
    ensures VerifyOtpTransition(m, docs, hash, req, now) == (Response(400, Notice("User data not found"), None), m - {req.email}, docs)
  {
  }

  /**
   * A completed registration appends one user built from the payload, with
   * the hashed password, `isEmailVerified` set and missing optional fields
   * as "", answers 201 and sets a 24-hour cookie for the new id.
   */
  lemma RegistrationInserts(m: Storage, docs: seq<UserDoc>, hash: string -> string, req: VerifyOtpRequest, now: int)
    requires req.email != "" && req.otp != "" && KindOf(req) == "registration"
    requires req.email in m && !Expired(m[req.email], now) && m[req.email].attempts < MaxFailedAttempts
    requires m[req.email].otp == req.otp && m[req.email].userData.Some?
    ensures var ud := m[req.email].userData.value;
      var (r, m', docs') := VerifyOtpTransition(m, docs, hash, req, now);
      r.status == 201 && m' == m - {req.email}
      && |docs'| == |docs| + 1 && docs'[..|docs|] == docs
      && docs'[|docs|].id == |docs| && docs'[|docs|].email == ud.email
      && docs'[|docs|].password == hash(ud.password) && docs'[|docs|].isEmailVerified
      && docs'[|docs|].username == ud.username
      && docs'[|docs|].firstName == ud.firstName && docs'[|docs|].lastName == ud.lastName
      && docs'[|docs|].dob == ud.dob && docs'[|docs|].avatar == ud.avatar
      && docs'[|docs|].createdAt == now
      && r.body == Welcome("Registration successful", true,
                           SessionUser(|docs|, ud.email, ud.firstName, ud.lastName, ud.dob, ud.avatar, true))
      && r.cookie == Some(Cookie("auth_token", SessionToken(Claims(Some(|docs|), Some(ud.email)), 86400), true, "lax", 86400, "/"))
  {
  }

  /**
   * The account a registration creates takes its address from the payload
   * stored with the code, not from the address the code was sent to and
   * checked against, and nothing looks for an existing account at this
   * point: a code obtained for one address creates a verified account for
   * another, even one already registered.
   */
  lemma RegisteredAddressComesFromPayload(docs: seq<UserDoc>, hash: string -> string, now: int,
                                          verified: string, other: string, otp: string, ud: PendingUser)
    requires verified != "" && otp != "" && other != verified && ud.email == other
    ensures var m := map[verified := OtpRecord(otp, verified, now, 0, "registration", Some(ud))];
      var docs' := VerifyOtpTransition(m, docs, hash, VerifyOtpRequest(verified, otp, None), now).2;
      |docs'| == |docs| + 1 && docs'[|docs|].email == other && docs'[|docs|].email != verified
      && docs'[|docs|].isEmailVerified
  {
  }

  /**
   * An OTP login for an unknown address is a 404; for a known one a 200 with
   * the user's id and e-mail in a 24-hour token, the first name falling
   * back to the username.
   */
  lemma LoginOutcome(m: Storage, docs: seq<UserDoc>, hash: string -> string, req: VerifyOtpRequest, now: int)
    requires req.email != "" && req.otp != "" && KindOf(req) == "login"
    requires VerifyTransition(m, req.email, req.otp, now).0.success
    ensures var (r, m', docs') := VerifyOtpTransition(m, docs, hash, req, now);
      docs' == docs && m' == m - {req.email}
      && (FindByEmail(docs, req.email).None? ==> r == Response(404, Notice("User not found"), None))
      && (FindByEmail(docs, req.email).Some? ==>
            var u := FindByEmail(docs, req.email).value;
            r.status == 200 && u.email == req.email
            && r.cookie == Some(Cookie("auth_token", SessionToken(Claims(Some(u.id), Some(u.email)), 86400), true, "lax", 86400, "/"))
            && r.body.Welcome? && r.body.user.firstName == Or(u.firstName, u.username))
  {
  }
}
