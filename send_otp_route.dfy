/**
 * POST /api/send-otp (app/api/send-otp/route.ts): check the address against
 * the user collection according to the purpose, store a fresh code, and
 * e-mail it. The random draw, the clock and the mail server's verdict are
 * parameters; the e-mail the handler hands to the sender is returned.
 */
module SendOtpRoute {
  import opened Wrappers
  import opened JsStrings
  import opened Users
  import opened Http
  import opened OtpService

  const MsgEmailRequired := "Email is required"
  const MsgAlreadyExists := "User already exists with this email"
  const MsgNoAccount := "No account found with this email"
  const MsgSendFailed := "Failed to send OTP email"
  const MsgSent := "OTP sent successfully"

  const KindRegistration := "registration"
  const KindLogin := "login"

  /** The JSON body; `kind` is None when the request has no `type`. */
  datatype SendOtpRequest = SendOtpRequest(email: string, kind: Option<string>, userData: Option<PendingUser>)

  datatype SendBody = Notice(message: string) | Sent(message: string, success: bool)

  /** What is handed to `sendOTPEmail`: recipient, code and greeting name. */
  datatype OtpEmail = OtpEmail(to: string, code: string, name: Option<string>)

  /** `type = 'registration'`: the default applies only when `type` is absent. */
  function KindOf(req: SendOtpRequest): string {
    req.kind.GetOr(KindRegistration)
  }

  /** `userData?.firstName || userData?.username`. */
  function GreetingName(userData: Option<PendingUser>): Option<string> {
    if userData.None? then None else Some(Or(userData.value.firstName, userData.value.username))
  }

  /** The response, the OTP map afterwards, and the e-mail handed to the sender. */
  function SendOtpTransition(m: Storage, docs: seq<UserDoc>, req: SendOtpRequest, draw: int, delivered: bool, now: int)
    : (Response<SendBody>, Storage, Option<OtpEmail>)
    requires OtpMin <= draw < OtpBound
  {
    var kind := KindOf(req);
    if req.email == "" then
      (Response(400, Notice(MsgEmailRequired), None), m, None)
    else if kind == KindRegistration && FindByEmail(docs, req.email).Some? then
      (Response(400, Notice(MsgAlreadyExists), None), m, None)
    else if kind == KindLogin && FindByEmail(docs, req.email).None? then
      (Response(404, Notice(MsgNoAccount), None), m, None)
    else
      var otp := GenerateOtp(draw);
      var m' := StoreTransition(m, req.email, otp, kind, req.userData, now);
      var mail := Some(OtpEmail(req.email, otp, GreetingName(req.userData)));
      if !delivered then (Response(500, Notice(MsgSendFailed), None), m', mail)
      else (Response(200, Sent(MsgSent, true), None), m', mail)
  }

  /** The handler. */
  method SendOtp(store: OtpStore, users: UserCollection, req: SendOtpRequest, draw: int, delivered: bool, now: int)
    returns (r: Response<SendBody>, mail: Option<OtpEmail>)
    requires OtpMin <= draw < OtpBound
    modifies store
    ensures (r, store.storage, mail) == SendOtpTransition(old(store.storage), users.docs, req, draw, delivered, now)
  {
    var kind := if req.kind.Some? then req.kind.value else KindRegistration;
    if req.email == "" {
      return Response(400, Notice(MsgEmailRequired), None), None;
    }
    if kind == KindRegistration {
      var existing := users.FindOne(req.email);
      if existing.Some? {
        return Response(400, Notice(MsgAlreadyExists), None), None;
      }
    }
    if kind == KindLogin {
      var existing := users.FindOne(req.email);
      if existing.None? {
        return Response(404, Notice(MsgNoAccount), None), None;
      }
    }
    var otp := GenerateOtp(draw);
    store.StoreOtp(req.email, otp, kind, req.userData, now);
    mail := Some(OtpEmail(req.email, otp, GreetingName(req.userData)));
    if !delivered {
      return Response(500, Notice(MsgSendFailed), None), mail;
    }
    r := Response(200, Sent(MsgSent, true), None);
  }

  /** A missing e-mail is a 400 that stores and sends nothing. */
  lemma SendMissingEmail(m: Storage, docs: seq<UserDoc>, req: SendOtpRequest, draw: int, delivered: bool, now: int)
    requires OtpMin <= draw < OtpBound && req.email == ""
    ensures SendOtpTransition(m, docs, req, draw, delivered, now) == (Response(400, Notice("Email is required"), None), m, None)
  {
  }

  /** A request without `type` is handled as a registration. */
  lemma KindDefaultsToRegistration(m: Storage, docs: seq<UserDoc>, req: SendOtpRequest, draw: int, delivered: bool, now: int)
    requires OtpMin <= draw < OtpBound && req.kind.None?
    ensures SendOtpTransition(m, docs, req, draw, delivered, now)
         == SendOtpTransition(m, docs, req.(kind := Some("registration")), draw, delivered, now)
  {
  }

  /**
   * Registration for a registered address is a 400, and login for an unknown
   * one a 404; neither stores a code or sends mail.
   */
  lemma SendExistenceChecks(m: Storage, docs: seq<UserDoc>, req: SendOtpRequest, draw: int, delivered: bool, now: int)
    requires OtpMin <= draw < OtpBound && req.email != ""
    ensures KindOf(req) == "registration" && FindByEmail(docs, req.email).Some? ==>
      SendOtpTransition(m, docs, req, draw, delivered, now)
        == (Response(400, Notice("User already exists with this email"), None), m, None)
    ensures KindOf(req) == "login" && FindByEmail(docs, req.email).None? ==>
      SendOtpTransition(m, docs, req, draw, delivered, now)
        == (Response(404, Notice("No account found with this email"), None), m, None)
  {
  }

  /**
   * Past the checks (and always for a `type` other than registration or
   * login) the code is stored before sending: the record stays whether or
   * not the mail goes out, the mail carries the stored code, and mail
   * failure is a 500 while success is a 200 with `success: true`.
   */
  lemma SendStoresThenMails(m: Storage, docs: seq<UserDoc>, req: SendOtpRequest, draw: int, delivered: bool, now: int)
    requires OtpMin <= draw < OtpBound && req.email != ""
    requires KindOf(req) == "registration" ==> FindByEmail(docs, req.email).None?
    requires KindOf(req) == "login" ==> FindByEmail(docs, req.email).Some?
    ensures var (r, m', mail) := SendOtpTransition(m, docs, req, draw, delivered, now);
      req.email in m' && m'[req.email] == IssuedRecord(req.email, GenerateOtp(draw), KindOf(req), req.userData, now)
      && m' == StoreTransition(m, req.email, GenerateOtp(draw), KindOf(req), req.userData, now)
      && mail == Some(OtpEmail(req.email, m'[req.email].otp, GreetingName(req.userData)))
      && (delivered ==> r == Response(200, Sent("OTP sent successfully", true), None))
      && (!delivered ==> r == Response(500, Notice("Failed to send OTP email"), None))
  {
    var otp := GenerateOtp(draw);
    var rec := IssuedRecord(req.email, otp, KindOf(req), req.userData, now);
    assert !Expired(rec, now);
  }

  /** Any `type` other than registration or login skips both checks. */
  lemma OtherKindAlwaysStores(m: Storage, docs: seq<UserDoc>, req: SendOtpRequest, draw: int, delivered: bool, now: int)
    requires OtpMin <= draw < OtpBound && req.email != ""
    requires KindOf(req) != "registration" && KindOf(req) != "login"
    ensures var (r, m', mail) := SendOtpTransition(m, docs, req, draw, delivered, now);
      req.email in m' && m'[req.email].kind == KindOf(req) && mail.Some?
  {
    SendStoresThenMails(m, docs, req, draw, delivered, now);
  }

  /**
   * The code in the mail, entered before the record expires, verifies and
   * hands back the payload given with the request.
   */
  lemma {:induction false} MailedCodeVerifies(m: Storage, docs: seq<UserDoc>, req: SendOtpRequest, draw: int,
                                              delivered: bool, now: int, later: int)
    requires OtpMin <= draw < OtpBound && req.email != ""
    requires KindOf(req) == "registration" ==> FindByEmail(docs, req.email).None?
    requires KindOf(req) == "login" ==> FindByEmail(docs, req.email).Some?
    requires now <= later <= now + OtpLifetimeMs
    ensures var (_, m', mail) := SendOtpTransition(m, docs, req, draw, delivered, now);
      mail.Some? && VerifyTransition(m', req.email, mail.value.code, later).0 == Verification(true, "OTP verified successfully", req.userData)
  {
    SendStoresThenMails(m, docs, req, draw, delivered, now);
  }
}
