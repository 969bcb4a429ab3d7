/** The server's authentication middleware: the `Authorization` header must be
    `Bearer <token>`, the signing secret must be configured, the token must
    verify, and its user must exist. JWT verification is a parameter
    (`None` when it throws); the user collection is a sequence. */
module AuthMiddleware {
  import opened Common

  type Id = int

  /** A user document, as stored. A missing `companyId` is `None`. */
  datatype User = User(id: Id, name: string, countryId: string, email: string, phone: string,
                       address: string, coords: Option<Coord>, passwordHash: string, role: string,
                       companyId: Option<Id>)

  /** The claims a token carries. */
  datatype Claims = Claims(id: Id, role: string)

  datatype Outcome = Rejected(reply: Reply) | Authenticated(user: User)

  const NoToken: Reply := Reply(401, "Access denied, no token provided")
  const BadFormat: Reply := Reply(401, "Invalid token format")
  const NoSecret: Reply := Reply(500, "Server error: JWT_SECRET missing")
  const UserNotFound: Reply := Reply(401, "User not found")
  const InvalidToken: Reply := Reply(401, "Invalid token")

  const Scheme: string := "Bearer"

  /** A string that JavaScript treats as false: absent or empty. */
  predicate Falsy(s: Option<string>)
  {
    s.None? || s.value == ""
  }

  /** The format check: splitting on single spaces must give exactly
      `Bearer` and the token. */
  function BearerToken(header: string): Option<string>
  {
    var parts := Split(header, ' ');
    if |parts| == 2 && parts[0] == Scheme then Some(parts[1]) else None
  }

  /** The format check accepts exactly `"Bearer " + t` for a token t without
      spaces, and extracts t. */
  lemma BearerFormat(header: string)
    ensures BearerToken(header).Some? ==>
              ' ' !in BearerToken(header).value && header == Scheme + " " + BearerToken(header).value
  {
    var parts := Split(header, ' ');
    if |parts| == 2 && parts[0] == Scheme {
      JoinSplit(header, ' ');
      assert Join(parts, ' ') == parts[0] + [' '] + parts[1];
    }
  }

  lemma BearerOf(token: string)
    requires ' ' !in token
    ensures BearerToken(Scheme + " " + token) == Some(token)
  {
    SplitNoSeparator(token, ' ');
    SplitConcat(Scheme, token, ' ');
    assert Scheme + " " + token == Scheme + [' '] + token;
  }

  function HasId(id: Id): User -> bool
  {
    (u: User) => u.id == id
  }

  /** The middleware: the guards run in this order and the first failing
      one answers; `next()` is reached with the user found, read without
      its password. */
  function Authenticate(header: Option<string>, secret: Option<string>,
                        verify: (string, string) -> Option<Claims>, users: seq<User>): (r: Outcome)
    ensures Falsy(header) ==> r == Rejected(NoToken)
    ensures !Falsy(header) && BearerToken(header.value).None? ==> r == Rejected(BadFormat)
    ensures r == Rejected(NoSecret) <==> !Falsy(header) && BearerToken(header.value).Some? && Falsy(secret)
    ensures (!Falsy(header) && BearerToken(header.value).Some? && !Falsy(secret) &&
             verify(BearerToken(header.value).value, secret.value).None?) ==> r == Rejected(InvalidToken)
    ensures r == Rejected(UserNotFound) <==>
              !Falsy(header) && BearerToken(header.value).Some? && !Falsy(secret) &&
              verify(BearerToken(header.value).value, secret.value).Some? &&
              forall i :: 0 <= i < |users| ==>
                users[i].id != verify(BearerToken(header.value).value, secret.value).value.id
    ensures r.Authenticated? ==> r.user.passwordHash == ""
  {
    if Falsy(header) then Rejected(NoToken)
    else match BearerToken(header.value)
      case None => Rejected(BadFormat)
      case Some(token) =>
        if Falsy(secret) then Rejected(NoSecret)
        else match verify(token, secret.value)
          case None => Rejected(InvalidToken)
          case Some(claims) =>
            match Find(users, HasId(claims.id))
              case None => Rejected(UserNotFound)
              case Some(u) => Authenticated(u.(passwordHash := ""))
  }

  /** Only a well-formed header whose token verifies under the configured
      secret, naming a stored user, gets through, and then as that user. */
  lemma AuthenticatedUser(header: Option<string>, secret: Option<string>,
                          verify: (string, string) -> Option<Claims>, users: seq<User>)
    requires Authenticate(header, secret, verify, users).Authenticated?
    ensures exists token, i :: ' ' !in token && header == Some(Scheme + " " + token) &&
              !Falsy(secret) && verify(token, secret.value).Some? &&
              0 <= i < |users| && users[i].id == verify(token, secret.value).value.id &&
              Authenticate(header, secret, verify, users).user == users[i].(passwordHash := "")
  {
    var token := BearerToken(header.value).value;
    BearerFormat(header.value);
    var claims := verify(token, secret.value).value;
    var i :| 0 <= i < |users| && users[i] == Find(users, HasId(claims.id)).value && HasId(claims.id)(users[i]);
    assert header == Some(Scheme + " " + token);
  }

  /** A token that verifies, for a user that is stored, always gets through
      when sent as `Bearer <token>` and the secret is set. */
  lemma ValidBearerAccepted(token: string, secret: string, verify: (string, string) -> Option<Claims>,
                            users: seq<User>, i: nat)
    requires ' ' !in token && secret != "" && verify(token, secret).Some?
    requires i < |users| && users[i].id == verify(token, secret).value.id
    ensures Authenticate(Some(Scheme + " " + token), Some(secret), verify, users).Authenticated?
  {
    BearerOf(token);
    assert HasId(verify(token, secret).value.id)(users[i]);
  }
}
