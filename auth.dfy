/**
 * The user registry behind `/auth/register`, `/auth/login` and the bearer-token
 * dependency `get_current_user`. Password hashing and token signing are
 * collaborators: the hash arrives as an argument, the password check is a
 * function parameter, and a token is modelled by the claims it carries.
 */
module Auth {
  import opened Wrappers
  import opened Http
  import Collection

  /** Tokens stay valid for seven days. */
  const TokenLifetimeHours: nat := 24 * 7
  const SecondsPerHour: nat := 3600
  const BearerType: string := "bearer"

  const EmailTaken: HttpError := HttpError(BadRequest, "Email already registered")
  const BadCredentials: HttpError := HttpError(Unauthorized, "Invalid email or password")
  const TokenExpired: HttpError := HttpError(Unauthorized, "Token has expired")
  const InvalidToken: HttpError := HttpError(Unauthorized, "Invalid token")
  const UnknownUser: HttpError := HttpError(Unauthorized, "User not found")
  /** What the server answers when an exception escapes a request handler. */
  const ServerError: HttpError := HttpError(InternalError, "Internal Server Error")

  /** A stored user document; times are seconds since the epoch. */
  datatype User = User(id: string, email: string, name: string, passwordHash: string, createdAt: int)

  /** A user document as `get_current_user` reads it: without the password hash. */
  datatype Profile = Profile(id: string, email: string, name: string, createdAt: int)

  /** The `user` part of a token response. */
  datatype UserSummary = UserSummary(id: string, email: string, name: string)

  /** The claims of a token; a decoded token need not carry every claim. */
  datatype Claims = Claims(sub: Option<string>, email: Option<string>, exp: Option<int>)

  /** A bearer token: claims signed with the server secret, or anything else. */
  datatype Token = Signed(claims: Claims) | Unsigned(raw: string)

  datatype TokenResponse = TokenResponse(accessToken: Token, tokenType: string, user: UserSummary)

  /** The result of decoding a token with the JWT library. */
  datatype Decoded = Payload(claims: Claims) | Expired | Undecodable

  /** `create_access_token`: the subject, the email and an expiry seven days after `now`. */
  function AccessToken(userId: string, email: string, now: int): (t: Token)
    ensures t.Signed? && t.claims.sub == Some(userId) && t.claims.email == Some(email)
    ensures t.claims.exp.Some? && t.claims.exp.value - now == 168 * 3600
  {
    Signed(Claims(Some(userId), Some(email), Some(now + TokenLifetimeHours * SecondsPerHour)))
  }

  /**
   * `jwt.decode`: a token without a valid signature does not decode, and a
   * signed one whose expiry is not after `now` has expired.
   */
  function Decode(token: Token, now: int): Decoded {
    match token
    case Unsigned(_) => Undecodable
    case Signed(claims) =>
      if claims.exp.Some? && claims.exp.value <= now then Expired else Payload(claims)
  }

  /** `verify_token`: the claims of a token that decodes, each failure a 401 of its own. */
  function VerifyToken(token: Token, now: int): (r: Result<Claims, HttpError>)
    ensures r.Ok? <==> Decode(token, now).Payload?
    ensures r.Ok? ==> token == Signed(r.value)
    ensures Decode(token, now).Expired? ==> r == Err(TokenExpired)
    ensures Decode(token, now).Undecodable? ==> r == Err(InvalidToken)
  {
    match Decode(token, now)
    case Payload(claims) => Ok(claims)
    case Expired => Err(TokenExpired)
    case Undecodable => Err(InvalidToken)
  }

  /**
   * `verify_token` as the server is written. Its second handler names
   * `jwt.JWTError`, which the JWT library does not define, so a token that does
   * not decode raises an `AttributeError` while the handlers are matched; it
   * escapes the request as a 500 instead of the intended 401. Every token that
   * decodes or has expired is handled as `VerifyToken` handles it.
   */
  function VerifyTokenAsWritten(token: Token, now: int): (r: Result<Claims, HttpError>)
    ensures Decode(token, now).Undecodable? ==> r == Err(ServerError)
    ensures !Decode(token, now).Undecodable? ==> r == VerifyToken(token, now)
  {
    match Decode(token, now)
    case Payload(claims) => Ok(claims)
    case Expired => Err(TokenExpired)
    case Undecodable => Err(ServerError)
  }

  /** A malformed bearer token: the intended answer is a 401, the code as written gives a 500. */
  lemma MalformedTokenIsServerError(now: int)
    ensures VerifyToken(Unsigned("garbage"), now) == Err(InvalidToken)
    ensures VerifyTokenAsWritten(Unsigned("garbage"), now) == Err(ServerError)
    ensures VerifyTokenAsWritten(Unsigned("garbage"), now) != VerifyToken(Unsigned("garbage"), now)
  {
  }

  /** An issued token is accepted exactly until its seven days are over. */
  lemma AccessTokenLifetime(userId: string, email: string, issued: int, now: int)
    ensures VerifyToken(AccessToken(userId, email, issued), now).Ok? <==> now < issued + 168 * 3600
  {
  }

  function ProfileOf(u: User): Profile {
    Profile(u.id, u.email, u.name, u.createdAt)
  }

  function ResponseFor(u: User, now: int): TokenResponse {
    TokenResponse(AccessToken(u.id, u.email, now), BearerType, UserSummary(u.id, u.email, u.name))
  }

  /** `find_one({"email": email})`. */
  function FindByEmail(users: seq<User>, email: string): Option<nat> {
    Collection.FindOne(users, (u: User) => u.email == email)
  }

  /** `find_one({"id": id})`. */
  function FindById(users: seq<User>, id: string): Option<nat> {
    Collection.FindOne(users, (u: User) => u.id == id)
  }

  /** No two users share an email. */
  ghost predicate DistinctEmails(users: seq<User>) {
    forall i, j :: 0 <= i < j < |users| ==> users[i].email != users[j].email
  }

  /** With distinct emails, the user `find_one` picks for an email is the only one that has it. */
  lemma FoundEmailIsUnique(users: seq<User>, email: string, k: nat)
    requires DistinctEmails(users) && k < |users| && users[k].email == email
    ensures FindByEmail(users, email) == Some(k)
  {
    var r := FindByEmail(users, email);
    assert r.Some? && users[r.value].email == email;
  }

  class UserRegistry {
    /** The `users` collection, in insertion order. */
    var users: seq<User>

    ghost predicate Valid()
      reads this
    {
      DistinctEmails(users)
    }

    constructor ()
      ensures Valid() && users == []
    {
      users := [];
    }

    /**
     * `register`: an email already present is rejected and nothing changes;
     * otherwise exactly one user is added and the returned token's subject is
     * that user's id. `passwordHash` is the bcrypt hash of the password,
     * `newId` the fresh uuid, `createdAt` the creation time and `issuedAt`
     * the time the token is issued; the server reads the clock for each.
     */
    method Register(email: string, name: string, passwordHash: string, newId: string, createdAt: int, issuedAt: int)
      returns (r: Result<TokenResponse, HttpError>)
      requires Valid()
      modifies this
      ensures Valid()
      ensures old(FindByEmail(users, email)).Some? ==> r == Err(EmailTaken) && users == old(users)
      ensures old(FindByEmail(users, email)).None? ==>
        && users == old(users) + [User(newId, email, name, passwordHash, createdAt)]
        && r == Ok(ResponseFor(User(newId, email, name, passwordHash, createdAt), issuedAt))
      ensures r.Ok? ==> r.value.accessToken.claims.sub == Some(newId)
    {
      if FindByEmail(users, email).Some? {
        return Err(EmailTaken);
      }
      var user := User(newId, email, name, passwordHash, createdAt);
      users := users + [user];
      r := Ok(ResponseFor(user, issuedAt));
    }

    /**
     * `login`: a token for the user with this email when `checkPassword`
     * accepts the password against the stored hash. An unknown email and a
     * wrong password give the very same error. While emails are distinct, the
     * user with the email is the only candidate.
     */
    method Login(email: string, password: string, checkPassword: (string, string) -> bool, now: int)
      returns (r: Result<TokenResponse, HttpError>)
      ensures r.Ok? <==>
        exists k :: 0 <= k < |users| && FindByEmail(users, email) == Some(k)
                    && checkPassword(password, users[k].passwordHash)
      ensures r.Ok? ==>
        FindByEmail(users, email).Some? && r.value == ResponseFor(users[FindByEmail(users, email).value], now)
      ensures r.Err? ==> r.error == BadCredentials
      ensures Valid() ==> forall k :: 0 <= k < |users| && users[k].email == email ==>
        && (r.Ok? <==> checkPassword(password, users[k].passwordHash))
        && (r.Ok? ==> r.value == ResponseFor(users[k], now))
    {
      if Valid() {
        forall j | 0 <= j < |users| && users[j].email == email
          ensures FindByEmail(users, email) == Some(j)
        {
          FoundEmailIsUnique(users, email, j);
        }
      }
      match FindByEmail(users, email)
      case None =>
        r := Err(BadCredentials);
      case Some(k) =>
        if !checkPassword(password, users[k].passwordHash) {
          return Err(BadCredentials);
        }
        r := Ok(ResponseFor(users[k], now));
    }

    /**
     * `get_current_user`: the profile of the user the token names. A token
     * that does not verify, one whose subject is absent or empty, and one
     * whose subject is no stored user are each rejected with a 401.
     */
    method CurrentUser(token: Token, now: int) returns (r: Result<Profile, HttpError>)
      ensures r.Err? ==> r.error in {TokenExpired, InvalidToken, UnknownUser}
      ensures r == Err(TokenExpired) <==> Decode(token, now).Expired?
      ensures r == Err(InvalidToken) <==>
        || Decode(token, now).Undecodable?
        || (Decode(token, now).Payload? && Decode(token, now).claims.sub in {None, Some("")})
      ensures r.Ok? ==>
        && Decode(token, now).Payload?
        && Decode(token, now).claims.sub == Some(r.value.id) && r.value.id != ""
        && FindById(users, r.value.id).Some?
        && r.value == ProfileOf(users[FindById(users, r.value.id).value])
      ensures r == Err(UnknownUser) <==>
        && Decode(token, now).Payload?
        && Decode(token, now).claims.sub.Some? && Decode(token, now).claims.sub.value != ""
        && forall k :: 0 <= k < |users| ==> users[k].id != Decode(token, now).claims.sub.value
    {
      match VerifyToken(token, now)
      case Err(e) =>
        r := Err(e);
      case Ok(claims) =>
        if claims.sub.None? || claims.sub.value == "" {
          return Err(InvalidToken);
        }
        match FindById(users, claims.sub.value)
        case None =>
          r := Err(UnknownUser);
        case Some(k) =>
          r := Ok(ProfileOf(users[k]));
    }
  }

  /**
   * The register, login and current-user sequence a client goes through: a
   * fresh registry, one registration, a login with the same password and a
   * request made with the login token before it expires reach the new user.
   */
  method RegisterLoginAndRequest(
    email: string, name: string, password: string, passwordHash: string,
    checkPassword: (string, string) -> bool, newId: string,
    registeredAt: int, loggedInAt: int, requestedAt: int)
    returns (me: Result<Profile, HttpError>)
    requires checkPassword(password, passwordHash)
    requires newId != ""
    requires requestedAt < loggedInAt + TokenLifetimeHours * SecondsPerHour
    ensures me == Ok(Profile(newId, email, name, registeredAt))
  {
    var registry := new UserRegistry();
    var registered := registry.Register(email, name, passwordHash, newId, registeredAt, registeredAt);
    assert registry.users == [User(newId, email, name, passwordHash, registeredAt)];
    var login := registry.Login(email, password, checkPassword, loggedInAt);
    assert FindByEmail(registry.users, email) == Some(0);
    assert login.Ok?;
    me := registry.CurrentUser(login.value.accessToken, requestedAt);
    assert FindById(registry.users, newId) == Some(0);
  }
}
