/** The user model: the schema's casting and validation rules, the pre-save hook
    that hashes a modified password, and the bootstrap that creates the admin
    account when none exists.

    Hashing is a parameter: `hash(password, rounds)` is the salted hash, or `None`
    when the hashing library fails. The unique `email` index and the `_id` index
    are modelled as uniqueness checks on insert. */
module Users {
  import opened Outcomes
  import opened Text
  import opened Lookup

  /** The only value the `role` enum admits, and its default. */
  const AdminRole: string := "admin"
  /** The schema's `minlength` for the password. */
  const MinPasswordLength: nat := 6
  /** `bcrypt.genSalt(10)`. */
  const SaltRounds: nat := 10
  /** What a failing hashing library raises. */
  const HashFailure: AppError := OtherError("Error")

  /** A stored user; `password` holds whatever the pre-save hook left there. */
  datatype User = User(id: string, email: string, password: string, name: string, role: string)

  /** The fields handed to `create`; an absent role takes the default. */
  datatype UserInput = UserInput(email: string, password: string, name: string, role: Option<string>)

  function UserId(u: User): string {
    u.id
  }

  function UserEmail(u: User): string {
    u.email
  }

  /** The `trim` and `lowercase` setters on `email`; they also run on query filters. */
  function NormalizeEmail(email: string): string {
    Lower(Trim(email))
  }

  /** A new document as the schema casts it: setters applied, default role filled in. */
  function Cast(id: string, input: UserInput): User {
    User(id, NormalizeEmail(input.email), input.password, Trim(input.name),
         if input.role.None? then AdminRole else input.role.value)
  }

  /** The schema paths whose validators fail, in schema order. `required` refuses
      the empty string; on `password` it and `minlength` together demand six
      characters. */
  function SchemaErrors(u: User): (paths: seq<string>)
    ensures paths == [] <==>
      u.email != "" && |u.password| >= MinPasswordLength && u.name != "" && u.role == AdminRole
    ensures forall k :: 0 <= k < |paths| ==> paths[k] in ["email", "password", "name", "role"]
  {
    (if u.email == "" then ["email"] else [])
    + (if |u.password| < MinPasswordLength then ["password"] else [])
    + (if u.name == "" then ["name"] else [])
    + (if u.role != AdminRole then ["role"] else [])
  }

  /** The pre-save hook: a password that was not modified is left alone; a modified
      one is replaced by its salted hash, and a hashing failure aborts the save. */
  function PreSave(u: User, modified: bool, hash: (string, nat) -> Option<string>): (r: Result<User>)
    ensures !modified ==> r == Ok(u)
    ensures modified ==> (r.Err? <==> hash(u.password, SaltRounds).None?)
    ensures r.Err? ==> r.error == HashFailure
    ensures modified && r.Ok? ==> r.value.password == hash(u.password, SaltRounds).value
    ensures r.Ok? ==> r.value.(password := u.password) == u
    ensures r.Ok? && r.value.password != u.password ==> modified
  {
    if !modified then Ok(u)
    else
      match hash(u.password, SaltRounds)
      case None => Err(HashFailure)
      case Some(h) => Ok(u.(password := h))
  }

  /** Saving again without touching the password keeps the stored hash: the hook
      never hashes a hash. */
  lemma ResaveKeepsHash(u: User, hash: (string, nat) -> Option<string>, rehash: (string, nat) -> Option<string>)
    requires PreSave(u, true, hash).Ok?
    ensures PreSave(PreSave(u, true, hash).value, false, rehash) == PreSave(u, true, hash)
    ensures PreSave(u, true, hash).value.password == hash(u.password, SaltRounds).value
  {
  }

  /** The collection's invariants: both unique indexes hold and every stored user
      passed validation. */
  predicate ValidUsers(users: seq<User>) {
    && UniqueKeys(users, UserId)
    && UniqueKeys(users, UserEmail)
    && forall i :: 0 <= i < |users| ==> users[i].role == AdminRole && users[i].email != "" && users[i].name != ""
  }

  /** `Model.create(input)` on a new document: cast, validate, run the pre-save
      hook (every path of a new document counts as modified), then insert subject
      to the unique indexes. */
  function CreateUser(users: seq<User>, id: string, input: UserInput, hash: (string, nat) -> Option<string>)
    : (r: Result<seq<User>>)
    ensures SchemaErrors(Cast(id, input)) != [] ==> r == Err(ValidationError(SchemaErrors(Cast(id, input))))
    ensures r.Ok? <==>
      && NormalizeEmail(input.email) != ""
      && |input.password| >= MinPasswordLength
      && Trim(input.name) != ""
      && (input.role.None? || input.role.value == AdminRole)
      && hash(input.password, SaltRounds).Some?
      && !Has(users, UserId, id)
      && !Has(users, UserEmail, NormalizeEmail(input.email))
    ensures r.Ok? ==> r.value == users + [User(id, NormalizeEmail(input.email), hash(input.password, SaltRounds).value,
                                              Trim(input.name), AdminRole)]
  {
    var u := Cast(id, input);
    var paths := SchemaErrors(u);
    if paths != [] then Err(ValidationError(paths))
    else
      var saved :- PreSave(u, true, hash);
      if Has(users, UserId, saved.id) || Has(users, UserEmail, saved.email) then Err(DuplicateKey)
      else Ok(users + [saved])
  }

  lemma CreateUserKeepsValid(users: seq<User>, id: string, input: UserInput, hash: (string, nat) -> Option<string>)
    requires ValidUsers(users)
    requires CreateUser(users, id, input, hash).Ok?
    ensures ValidUsers(CreateUser(users, id, input, hash).value)
  {
    var u := User(id, NormalizeEmail(input.email), hash(input.password, SaltRounds).value, Trim(input.name), AdminRole);
    var after := CreateUser(users, id, input, hash).value;
    assert after == users + [u];
    assert u.email != "" && u.name != "";
    assert !Has(users, UserId, UserId(u)) && !Has(users, UserEmail, UserEmail(u));
    AppendKeepsUnique(users, u, UserId);
    AppendKeepsUnique(users, u, UserEmail);
    forall i | 0 <= i < |after|
      ensures after[i].role == AdminRole && after[i].email != "" && after[i].name != ""
    {
      if i < |users| {
        assert after[i] == users[i];
      }
    }
  }

  const DefaultAdminEmail: string := "admin@example.com"
  const DefaultAdminPassword: string := "admin123"
  const DefaultAdminName: string := "Admin User"

  /** `ADMIN_EMAIL`, `ADMIN_PASSWORD` and `ADMIN_NAME` from the environment. */
  datatype AdminEnv = AdminEnv(email: Option<string>, password: Option<string>, name: Option<string>)

  /** The seed account's fields: each variable, or its default when unset or empty. */
  function AdminSeed(env: AdminEnv): UserInput {
    UserInput(Or(env.email, DefaultAdminEmail), Or(env.password, DefaultAdminPassword),
              Or(env.name, DefaultAdminName), Some(AdminRole))
  }

  /** The user the bootstrap would insert for `env` under the id `newId`. */
  function AdminAccount(env: AdminEnv, newId: string, hash: (string, nat) -> Option<string>): User
    requires hash(AdminSeed(env).password, SaltRounds).Some?
  {
    User(newId, NormalizeEmail(AdminSeed(env).email), hash(AdminSeed(env).password, SaltRounds).value,
         Trim(AdminSeed(env).name), AdminRole)
  }

  /** `ensureAdminExists`: if no user has the seed email, create the admin account.
      Every failure of the lookup's follow-up insert is logged and swallowed, so the
      result is the collection as it stands afterwards. */
  function EnsureAdminExists(users: seq<User>, env: AdminEnv, newId: string, hash: (string, nat) -> Option<string>)
    : (r: seq<User>)
    ensures Has(users, UserEmail, NormalizeEmail(AdminSeed(env).email)) ==> r == users
    ensures r == users || (hash(AdminSeed(env).password, SaltRounds).Some? && r == users + [AdminAccount(env, newId, hash)])
    ensures r != users ==> Has(r, UserEmail, NormalizeEmail(AdminSeed(env).email))
    ensures r == users <==>
      || Has(users, UserEmail, NormalizeEmail(AdminSeed(env).email))
      || CreateUser(users, newId, AdminSeed(env), hash).Err?
  {
    var seed := AdminSeed(env);
    if Has(users, UserEmail, NormalizeEmail(seed.email)) then users
    else
      match CreateUser(users, newId, seed, hash)
      case Ok(created) =>
        assert UserEmail(created[|users|]) == NormalizeEmail(seed.email);
        created
      case Err(_) => users
  }

  /** Once the bootstrap has created the admin, running it again (with any id and
      any hashing outcome) creates nothing; the same holds when the admin was
      already there. */
  lemma EnsureAdminExistsIdempotent(users: seq<User>, env: AdminEnv, id1: string, id2: string,
                                     hash1: (string, nat) -> Option<string>, hash2: (string, nat) -> Option<string>)
    requires EnsureAdminExists(users, env, id1, hash1) != users
          || Has(users, UserEmail, NormalizeEmail(AdminSeed(env).email))
    ensures var once := EnsureAdminExists(users, env, id1, hash1);
      EnsureAdminExists(once, env, id2, hash2) == once
  {
  }

  /** The bootstrap keeps the collection's invariants. */
  lemma EnsureAdminExistsKeepsValid(users: seq<User>, env: AdminEnv, newId: string, hash: (string, nat) -> Option<string>)
    requires ValidUsers(users)
    ensures ValidUsers(EnsureAdminExists(users, env, newId, hash))
  {
    var seed := AdminSeed(env);
    if !Has(users, UserEmail, NormalizeEmail(seed.email)) && CreateUser(users, newId, seed, hash).Ok? {
      CreateUserKeepsValid(users, newId, seed, hash);
    }
  }

  /** With no environment overrides and a working hash, a fresh collection gets
      exactly one user: `admin@example.com`, named `Admin User`, role `admin`,
      holding the hash of `admin123`. */
  lemma DefaultAdminCreated(newId: string, hash: (string, nat) -> Option<string>)
    requires hash(DefaultAdminPassword, SaltRounds).Some?
    ensures EnsureAdminExists([], AdminEnv(None, None, None), newId, hash)
         == [User(newId, DefaultAdminEmail, hash(DefaultAdminPassword, SaltRounds).value, DefaultAdminName, AdminRole)]
  {
    var seed := AdminSeed(AdminEnv(None, None, None));
    var cast := DefaultSeedCast(newId);
    var admin := cast.(password := hash(DefaultAdminPassword, SaltRounds).value);
    assert SchemaErrors(cast) == [] by {
      assert |DefaultAdminPassword| == 8;
    }
    assert PreSave(cast, true, hash) == Ok(admin);
    assert !Has([], UserEmail, DefaultAdminEmail);
    assert [] + [admin] == [admin];
  }

  /** The default seed account as the schema casts it: the setters leave every
      default field as it is. */
  lemma DefaultSeedCast(newId: string) returns (cast: User)
    ensures AdminSeed(AdminEnv(None, None, None)) == UserInput(DefaultAdminEmail, DefaultAdminPassword, DefaultAdminName, Some(AdminRole))
    ensures cast == Cast(newId, AdminSeed(AdminEnv(None, None, None)))
    ensures cast == User(newId, DefaultAdminEmail, DefaultAdminPassword, DefaultAdminName, AdminRole)
  {
    var seed := AdminSeed(AdminEnv(None, None, None));
    assert seed.email == DefaultAdminEmail && seed.password == DefaultAdminPassword;
    assert seed.name == DefaultAdminName && seed.role == Some(AdminRole);
    DefaultEmailIsNormal();
    DefaultNameIsTrimmed();
    cast := Cast(newId, seed);
    assert cast.email == DefaultAdminEmail && cast.name == DefaultAdminName;
  }

  lemma DefaultEmailIsNormal()
    ensures NormalizeEmail(DefaultAdminEmail) == DefaultAdminEmail
  {
    NormalizesToItself(DefaultAdminEmail);
  }

  lemma DefaultNameIsTrimmed()
    ensures Trim(DefaultAdminName) == DefaultAdminName
  {
    TrimsToItself(DefaultAdminName);
  }

  /** A string with no whitespace at either end and no upper-case letter is its
      own normal form. */
  lemma NormalizesToItself(s: string)
    requires s != [] && !IsWhitespace(s[0]) && !IsWhitespace(s[|s| - 1])
    requires forall i :: 0 <= i < |s| ==> !('A' <= s[i] <= 'Z')
    ensures NormalizeEmail(s) == s
  {
    TrimsToItself(s);
    assert Lower(s) == s;
  }
}
