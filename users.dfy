/**
 * The user collection the route handlers read and write (the `users`
 * collection behind getUserCollection in dbCollections.ts), reduced to what
 * the handlers use: `findOne` by e-mail or by id and `insertOne`.
 * Document ids are positions in the collection.
 */
module Users {
  import opened Wrappers

  datatype Subscription = Subscription(plan: string, status: string)

  datatype TokenUsage = TokenUsage(dailyLimit: int, usedToday: int, lastResetDate: int, totalUsed: int)

  /** A stored user; an absent string field reads as "". */
  datatype UserDoc = UserDoc(
    id: nat, username: string, email: string, password: string,
    firstName: string, lastName: string, dob: string, avatar: string,
    isEmailVerified: bool, createdAt: int,
    subscription: Option<Subscription>, tokens: Option<TokenUsage>)

  /** The document a handler passes to `insertOne`. */
  datatype NewUser = NewUser(
    username: string, email: string, password: string,
    firstName: string, lastName: string, dob: string, avatar: string,
    isEmailVerified: bool, createdAt: int)

  function Stored(u: NewUser, id: nat): UserDoc {
    UserDoc(id, u.username, u.email, u.password, u.firstName, u.lastName, u.dob, u.avatar,
            u.isEmailVerified, u.createdAt, None, None)
  }

  /** `findOne({ email })`: the first document with that e-mail, if any. */
  function FindByEmail(docs: seq<UserDoc>, email: string): (r: Option<UserDoc>)
    ensures r.None? <==> forall i :: 0 <= i < |docs| ==> docs[i].email != email
    ensures r.Some? ==> r.value in docs && r.value.email == email
    decreases |docs|
  {
    if |docs| == 0 then None
    else if docs[0].email == email then Some(docs[0])
    else FindByEmail(docs[1..], email)
  }

  /**
   * `findOne({ _id })`. The handlers query by two different fields, so the
   * two filters are kept apart rather than passed in as a predicate.
   */
  function FindById(docs: seq<UserDoc>, id: nat): (r: Option<UserDoc>)
    ensures r.None? <==> forall i :: 0 <= i < |docs| ==> docs[i].id != id
    ensures r.Some? ==> r.value in docs && r.value.id == id
    decreases |docs|
  {
    if |docs| == 0 then None
    else if docs[0].id == id then Some(docs[0])
    else FindById(docs[1..], id)
  }

  predicate IdsAreIndices(docs: seq<UserDoc>) {
    forall i :: 0 <= i < |docs| ==> docs[i].id == i
  }

  predicate EmailsUnique(docs: seq<UserDoc>) {
    forall i, j :: 0 <= i < j < |docs| ==> docs[i].email != docs[j].email
  }

  /** Looking a user up by the id it was stored under finds that user. */
  lemma FindStoredById(docs: seq<UserDoc>, i: nat)
    requires IdsAreIndices(docs) && i < |docs|
    ensures FindById(docs, i) == Some(docs[i])
  {
  }

  class UserCollection {
    var docs: seq<UserDoc>

    ghost predicate Valid()
      reads this
    {
      IdsAreIndices(docs)
    }

    constructor ()
      ensures Valid() && docs == []
    {
      docs := [];
    }

    method FindOne(email: string) returns (r: Option<UserDoc>)
      ensures r == FindByEmail(docs, email)
    {
      r := FindByEmail(docs, email);
    }

    /** `insertOne`: append the document under a new id. */
    method InsertOne(u: NewUser) returns (id: nat)
      requires Valid()
      modifies this
      ensures Valid()
      ensures id == |old(docs)| && docs == old(docs) + [Stored(u, id)]
    {
      id := |docs|;
      docs := docs + [Stored(u, id)];
    }
  }
}

/** Responses, cookies and the session token's claims. */
module Http {
  import opened Wrappers

  /** The claims a verified token yields; `id` is None when the payload has none. */
  datatype Claims = Claims(id: Option<nat>, email: Option<string>)

  /** What `jwt.sign(claims, secret, { expiresIn })` is asked to produce. */
  datatype SessionToken = SessionToken(claims: Claims, expiresInSeconds: nat)

  datatype Cookie = Cookie(
    name: string, value: SessionToken, httpOnly: bool, sameSite: string, maxAge: nat, path: string)

  /** An HTTP response: status, JSON body and the cookie it sets, if any. */
  datatype Response<B> = Response(status: nat, body: B, cookie: Option<Cookie>)

  const AuthCookieName := "auth_token"

  /** The `auth_token` cookie every handler sets: HTTP-only, `sameSite: lax`, path "/". */
  function AuthCookie(token: SessionToken, maxAge: nat): Cookie {
    Cookie(AuthCookieName, token, true, "lax", maxAge, "/")
  }
}
