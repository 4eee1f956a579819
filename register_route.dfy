/**
 * POST /api/register (app/api/register/route.ts): direct registration.
 * `bcrypt.hash(password, 10)` is the parameter `hash`; the clock is `now`.
 */
module RegisterRoute {
  import opened Wrappers
  import opened JsStrings
  import opened Users
  import opened Http

  const MsgMissingFields := "Missing required fields"
  const MsgUserExists := "User already exists"
  const MsgRegistered := "User registered successfully"

  datatype RegisterRequest = RegisterRequest(
    username: string, email: string, password: string,
    firstName: string, lastName: string, dob: string, avatar: string)

  /** The document inserted for an accepted request. */
  function NewUserFor(req: RegisterRequest, hash: string -> string, now: int): NewUser {
    NewUser(req.username, req.email, hash(req.password),
            Or(req.firstName, ""), Or(req.lastName, ""), Or(req.dob, ""), Or(req.avatar, ""), false, now)
  }

  /** The response and the collection's documents afterwards. */
  function RegisterTransition(docs: seq<UserDoc>, hash: string -> string, req: RegisterRequest, now: int)
    : (Response<string>, seq<UserDoc>)
  {
    if req.username == "" || req.email == "" || req.password == "" then
      (Response(400, MsgMissingFields, None), docs)
    else if FindByEmail(docs, req.email).Some? then
      (Response(400, MsgUserExists, None), docs)
    else
      (Response(201, MsgRegistered, None), docs + [Stored(NewUserFor(req, hash, now), |docs|)])
  }

  /** The handler: check the fields, look the e-mail up, insert. */
  method Register(users: UserCollection, hash: string -> string, req: RegisterRequest, now: int)
    returns (r: Response<string>)
    requires users.Valid()
    modifies users
    ensures users.Valid()
    ensures (r, users.docs) == RegisterTransition(old(users.docs), hash, req, now)
  {
    if req.username == "" || req.email == "" || req.password == "" {
      return Response(400, MsgMissingFields, None);
    }
    var existing := users.FindOne(req.email);
    if existing.Some? {
      return Response(400, MsgUserExists, None);
    }
    var hashed := hash(req.password);
    var _ := users.InsertOne(NewUser(req.username, req.email, hashed,
                                     Or(req.firstName, ""), Or(req.lastName, ""), Or(req.dob, ""), Or(req.avatar, ""),
                                     false, now));
    r := Response(201, MsgRegistered, None);
  }

  /** A missing username, e-mail or password is a 400 and inserts nothing. */
  lemma RegisterMissingField(docs: seq<UserDoc>, hash: string -> string, req: RegisterRequest, now: int)
    requires req.username == "" || req.email == "" || req.password == ""
    ensures RegisterTransition(docs, hash, req, now) == (Response(400, MsgMissingFields, None), docs)
  {
  }

  /** An e-mail already registered is a 400 and inserts nothing. */
  lemma RegisterRejectsExistingEmail(docs: seq<UserDoc>, hash: string -> string, req: RegisterRequest, now: int, i: nat)
    requires req.username != "" && req.email != "" && req.password != ""
    requires i < |docs| && docs[i].email == req.email
    ensures RegisterTransition(docs, hash, req, now) == (Response(400, MsgUserExists, None), docs)
  {
  }

  /**
   * An accepted request appends exactly one user, whose password is the hash
   * of the given one and whose optional fields default to "", and returns 201.
   */
  lemma RegisterInsertsOne(docs: seq<UserDoc>, hash: string -> string, req: RegisterRequest, now: int)
    requires (RegisterTransition(docs, hash, req, now)).0.status == 201
    ensures var docs' := RegisterTransition(docs, hash, req, now).1;
      |docs'| == |docs| + 1 && docs'[..|docs|] == docs
      && var u := docs'[|docs|];
      u.email == req.email && u.username == req.username && u.password == hash(req.password)
      && u.firstName == req.firstName && u.lastName == req.lastName
      && u.dob == req.dob && u.avatar == req.avatar
      && u.subscription.None? && u.tokens.None?
  {
  }

  /** Registration never creates a second user with the same e-mail. */
  lemma RegisterKeepsEmailsUnique(docs: seq<UserDoc>, hash: string -> string, req: RegisterRequest, now: int)
    requires EmailsUnique(docs) && IdsAreIndices(docs)
    ensures EmailsUnique(RegisterTransition(docs, hash, req, now).1)
    ensures IdsAreIndices(RegisterTransition(docs, hash, req, now).1)
  {
  }
}
