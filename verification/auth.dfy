/** The authentication gate and the role check placed in front of protected
    routes. `Ok(principal)` is `next()` with `req.user` set; `Err(e)` is
    `next(e)` with no user attached. */
module Auth {
  import opened Outcomes
  import opened Text
  import opened Lookup
  import opened Users
  import opened AuthService

  const BearerPrefix: string := "Bearer "

  const NoTokenProvided: AppError := CustomError("No token provided", 401)
  const UserNotFound: AppError := CustomError("User not found", 401)
  const NotAuthorized: AppError := CustomError("Not authorized", 401)
  const RouteForbidden: AppError := CustomError("Not authorized to access this route", 403)

  /** The user attached to the request: the stored user without its password. */
  datatype Principal = Principal(id: string, email: string, name: string, role: string)

  function WithoutPassword(u: User): Principal {
    Principal(u.id, u.email, u.name, u.role)
  }

  lemma BearerSplit(header: string)
    requires StartsWith(header, BearerPrefix)
    ensures Split(header, ' ') == ["Bearer"] + Split(header[|BearerPrefix|..], ' ')
  {
    assert header == "Bearer" + [' '] + header[|BearerPrefix|..];
    SplitAfterWord("Bearer", header[|BearerPrefix|..], ' ');
  }

  /** `authHeader.split(' ')[1]`: the text after `Bearer ` up to the next space. */
  function BearerToken(header: string): (token: string)
    requires StartsWith(header, BearerPrefix)
    ensures StartsWith(header[|BearerPrefix|..], token)
    ensures ' ' !in token
    ensures |BearerPrefix| + |token| == |header| || header[|BearerPrefix| + |token|] == ' '
  {
    BearerSplit(header);
    SplitHead(header[|BearerPrefix|..], ' ');
    Split(header, ' ')[1]
  }

  /** A token without spaces is read back whole from its `Bearer` header. */
  lemma BearerTokenOfHeader(token: string)
    requires ' ' !in token
    ensures StartsWith(BearerPrefix + token, BearerPrefix)
    ensures BearerToken(BearerPrefix + token) == token
  {
    var header := BearerPrefix + token;
    assert header[..|BearerPrefix|] == BearerPrefix;
    assert header[|BearerPrefix|..] == token;
    var t := BearerToken(header);
    assert token[..|t|] == t;
  }

  /** `authenticate`: a `Bearer` header is required before anything else; the
      token's failure is passed on as it is; the decoded id must name a stored user,
      who is attached without the password. */
  function Authenticate(header: Option<string>, users: seq<User>, secret: string, jwt: Jwt): (r: Result<Principal>)
    ensures header.None? || !StartsWith(header.value, BearerPrefix) ==> r == Err(NoTokenProvided)
    ensures header.Some? && StartsWith(header.value, BearerPrefix) ==>
      var verified := VerifyToken(BearerToken(header.value), secret, jwt);
      && (verified.Err? ==> r == Err(verified.error))
      && (verified.Ok? && !Has(users, UserId, verified.value.id) ==> r == Err(UserNotFound))
      && (verified.Ok? && Has(users, UserId, verified.value.id) ==> r.Ok?)
      && (r.Ok? ==>
            verified.Ok? && exists u :: u in users && u.id == verified.value.id && r.value == WithoutPassword(u))
    ensures r.Ok? ==> header.Some? && StartsWith(header.value, BearerPrefix)
    ensures r.Err? ==> r.error.CustomError? && r.error.statusCode == 401
  {
    if header.None? || !StartsWith(header.value, BearerPrefix) then Err(NoTokenProvided)
    else
      var decoded :- VerifyToken(BearerToken(header.value), secret, jwt);
      match FindFirst(users, UserId, decoded.id)
      case None => Err(UserNotFound)
      case Some(u) => Ok(WithoutPassword(u))
  }

  /** `authorize(...roles)`: an attached user whose role is listed passes; no user
      is 401, an unlisted role 403. */
  function Authorize(roles: seq<string>, user: Option<Principal>): (r: Outcome)
    ensures r == Pass <==> user.Some? && user.value.role in roles
    ensures user.None? ==> r == Fail(NotAuthorized)
    ensures user.Some? && user.value.role !in roles ==> r == Fail(RouteForbidden)
  {
    if user.None? then Fail(NotAuthorized)
    else if user.value.role !in roles then Fail(RouteForbidden)
    else Pass
  }

  /** Logging in and presenting the token as `Bearer <token>` gets through both
      gates of an admin route, as the user who logged in. */
  lemma LoginThenAccess(users: seq<User>, email: string, password: string, secret: string,
                        compare: (string, string) -> bool, jwt: Jwt)
    requires ValidUsers(users) && SignerSound(jwt)
    requires Login(users, email, password, secret, compare, jwt).Ok?
    requires ' ' !in Login(users, email, password, secret, compare, jwt).value.token
    ensures var answer := Login(users, email, password, secret, compare, jwt).value;
      var gate := Authenticate(Some(BearerPrefix + answer.token), users, secret, jwt);
      && gate.Ok?
      && gate.value.id == answer.user.id && gate.value.email == answer.user.email
      && gate.value.name == answer.user.name && gate.value.role == AdminRole
      && Authorize([AdminRole], Some(gate.value)) == Pass
  {
    var answer := Login(users, email, password, secret, compare, jwt).value;
    var u :| u in users && u.email == NormalizeEmail(email) && u.role == AdminRole && compare(password, u.password)
      && answer == AuthResponse(GenerateToken(u, secret, jwt), AuthUser(u.id, u.email, u.name));
    BearerTokenOfHeader(answer.token);
    GenerateThenVerify(u, secret, jwt);
    var i :| 0 <= i < |users| && users[i] == u;
    FindFirstUnique(users, UserId, i);
  }
}
