/** The credential service: password login for admin users, and issuing and
    checking JSON Web Tokens (RFC 7519).

    The token library is a parameter: `sign(payload, expiresIn, secret)` produces
    a token and `verify(token, secret)` gives back the payload, or `None` when the
    signature, the format or the expiry check fails. The expiry is the `exp` claim
    of section 4.1.4 of RFC 7519, kept as a constant lifetime; the clock it is
    checked against lives inside `verify`. Password comparison is the parameter
    `compare(candidate, storedHash)`. */
module AuthService {
  import opened Outcomes
  import opened Text
  import opened Lookup
  import opened Users

  /** `expiresIn: '24h'`, in seconds. */
  const JwtExpiresInSeconds: nat := 24 * 60 * 60
  const DefaultJwtSecret: string := "your-secret-key"

  const InvalidCredentials: AppError := CustomError("Invalid credentials", 401)
  const InvalidToken: AppError := CustomError("Invalid token", 401)

  /** `JWT_SECRET` from the environment, or the built-in default when unset or empty.
      The operations below take the secret as their `secret` parameter; the
      service passes `JwtSecret(env)` there. */
  function JwtSecret(env: Option<string>): string {
    Or(env, DefaultJwtSecret)
  }

  /** The claims carried by a token besides `iat` and `exp`. */
  datatype Payload = Payload(id: string, email: string, role: string)

  datatype Jwt = Jwt(sign: (Payload, nat, string) -> string, verify: (string, string) -> Option<Payload>)

  /** A token library whose `verify` accepts what its `sign` produced with the same
      secret (before the token expires) and gives the payload back unchanged. */
  ghost predicate SignerSound(jwt: Jwt) {
    forall p: Payload, e: nat, k: string :: jwt.verify(jwt.sign(p, e, k), k) == Some(p)
  }

  /** The public part of a logged-in user. */
  datatype AuthUser = AuthUser(id: string, email: string, name: string)

  datatype AuthResponse = AuthResponse(token: string, user: AuthUser)

  /** `findOne({email, role: 'admin'})`: the first admin user with that email. */
  function FindAdmin(users: seq<User>, email: string): (r: Option<User>)
    ensures r.None? <==> forall i :: 0 <= i < |users| ==> !(users[i].email == email && users[i].role == AdminRole)
    ensures r.Some? ==> r.value in users && r.value.email == email && r.value.role == AdminRole
  {
    if |users| == 0 then None
    else if users[0].email == email && users[0].role == AdminRole then Some(users[0])
    else
      var rest := FindAdmin(users[1..], email);
      assert forall i :: 1 <= i < |users| ==> users[1..][i - 1] == users[i];
      rest
  }

  /** The claims a token issued for `u` carries. */
  function TokenPayload(u: User): Payload {
    Payload(u.id, u.email, u.role)
  }

  /** `generateToken`: sign `{id, email, role}` with the secret and the 24-hour lifetime. */
  function GenerateToken(u: User, secret: string, jwt: Jwt): string {
    jwt.sign(TokenPayload(u), JwtExpiresInSeconds, secret)
  }

  /** `verifyToken`: the decoded payload, or one uniform error whatever went wrong. */
  function VerifyToken(token: string, secret: string, jwt: Jwt): (r: Result<Payload>)
    ensures r.Ok? <==> jwt.verify(token, secret).Some?
    ensures r.Ok? ==> r.value == jwt.verify(token, secret).value
    ensures r.Err? ==> r.error == InvalidToken
  {
    match jwt.verify(token, secret)
    case Some(decoded) => Ok(decoded)
    case None => Err(InvalidToken)
  }

  /** A token issued with a sound library verifies to exactly the claims it was
      issued with. */
  lemma GenerateThenVerify(u: User, secret: string, jwt: Jwt)
    requires SignerSound(jwt)
    ensures VerifyToken(GenerateToken(u, secret, jwt), secret, jwt) == Ok(Payload(u.id, u.email, u.role))
  {
  }

  /** `login`: look the user up by (normalised) email among admins, compare the
      password, and answer with a token and the user's public fields. An unknown
      user and a wrong password are indistinguishable. */
  function Login(users: seq<User>, email: string, password: string, secret: string,
                 compare: (string, string) -> bool, jwt: Jwt): (r: Result<AuthResponse>)
    ensures r.Err? ==> r.error == InvalidCredentials
    ensures r.Ok? ==>
      exists u ::
        && u in users
        && u.email == NormalizeEmail(email) && u.role == AdminRole && compare(password, u.password)
        && r.value == AuthResponse(GenerateToken(u, secret, jwt), AuthUser(u.id, u.email, u.name))
    ensures (forall i :: 0 <= i < |users| ==> users[i].email != NormalizeEmail(email) || users[i].role != AdminRole)
      ==> r == Err(InvalidCredentials)
  {
    match FindAdmin(users, NormalizeEmail(email))
    case None => Err(InvalidCredentials)
    case Some(u) =>
      if !compare(password, u.password) then Err(InvalidCredentials)
      else Ok(AuthResponse(GenerateToken(u, secret, jwt), AuthUser(u.id, u.email, u.name)))
  }

  /** Under the unique email index, login succeeds exactly when some admin has
      that email and the password matches that admin's hash. */
  lemma LoginSucceedsIff(users: seq<User>, email: string, password: string, secret: string,
                         compare: (string, string) -> bool, jwt: Jwt)
    requires ValidUsers(users)
    ensures Login(users, email, password, secret, compare, jwt).Ok? <==>
      exists i :: 0 <= i < |users| && users[i].email == NormalizeEmail(email) && compare(password, users[i].password)
  {
    var e := NormalizeEmail(email);
    if i :| 0 <= i < |users| && users[i].email == e && compare(password, users[i].password) {
      var found := FindAdmin(users, e);
      assert found.Some?;
      var j :| 0 <= j < |users| && users[j] == found.value;
      if j != i {
        assert UserEmail(users[i]) == UserEmail(users[j]);
      }
    }
  }

  /** A successful login's token verifies to the logged-in user's id and email and
      the admin role. */
  lemma LoginTokenVerifies(users: seq<User>, email: string, password: string, secret: string,
                           compare: (string, string) -> bool, jwt: Jwt)
    requires SignerSound(jwt)
    requires Login(users, email, password, secret, compare, jwt).Ok?
    ensures var answer := Login(users, email, password, secret, compare, jwt).value;
      VerifyToken(answer.token, secret, jwt) == Ok(Payload(answer.user.id, answer.user.email, AdminRole))
  {
  }
}
