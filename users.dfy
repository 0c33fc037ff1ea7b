/**
 * The `POST /api/users` and `POST /api/login` handlers. Registration stores
 * only the Argon2id hash and fails closed when hashing fails. Login always
 * performs exactly one password check, against the stored hash when the
 * lookup found the user and against the package's dummy hash otherwise, and
 * gives every failure the same 401 reply.
 */
module Users {
  import opened Common
  import opened Argon2id
  import opened Auth
  import opened Models
  import opened Store
  import opened Replies
  import opened Effects

  /** The decoded request body `{"email": ..., "password": ...}`. */
  datatype UserParams = UserParams(email: string, password: string)

  const ParseFailure := "Failed to parse user email or password"
  const MissingCredentials := "User must provide email and password"
  const HashFailure := "Failed to hash user's password"
  const CreateFailure := "Failed to create user"
  const BadCredentials := "Incorrect email or password"

  /** Both fields present (non-empty). */
  predicate Complete(params: UserParams)
  {
    params.email != "" && params.password != ""
  }

  /** The single reply for every failed login. */
  function Unauthorized(): Response
  {
    RespondWithError(StatusUnauthorized, BadCredentials)
  }

  /**
   * `createUser`. `request` is the decoded body (`None` when decoding
   * failed); `salt` the bytes the hashing library draws; `meta` the values
   * the database generates for the new row; `fault` a failure of the insert
   * query.
   */
  function CreateUser(lib: Library, users: Users, request: Option<UserParams>,
                      salt: seq<Byte>, meta: RowMeta, fault: bool): (h: Handled)
    ensures request.None? ==>
              h == Handled(RespondWithError(StatusInternalServerError, ParseFailure), [])
    ensures request.Some? && !Complete(request.value) ==>
              h == Handled(RespondWithError(StatusBadRequest, MissingCredentials), [])
    ensures request.Some? && Complete(request.value) ==>
              var p := request.value;
              var hash := HashPassword(lib, p.password, salt);
              && |h.effects| >= 1 && h.effects[0] == HashCall(p.password)
              && (hash.Err? ==>
                    h == Handled(RespondWithError(StatusInternalServerError, HashFailure), [HashCall(p.password)]))
              && (hash.Ok? ==> h.effects == [HashCall(p.password), InsertUser(p.email, hash.value)])
    ensures h.response.status == StatusCreated <==>
              && request.Some? && Complete(request.value)
              && HashPassword(lib, request.value.password, salt).Ok?
              && !fault && request.value.email !in users
    ensures h.response.status == StatusCreated ==>
              h.response == RespondWithJson(StatusCreated,
                UserJson(ResponseUser(meta.id, meta.createdAt, meta.updatedAt, request.value.email)))
    ensures && request.Some? && Complete(request.value)
            && HashPassword(lib, request.value.password, salt).Ok?
            && (fault || request.value.email in users) ==>
              h.response == RespondWithError(StatusInternalServerError, CreateFailure)
  {
    match request
    case None => Handled(RespondWithError(StatusInternalServerError, ParseFailure), [])
    case Some(p) =>
      if p.email == "" || p.password == "" then
        Handled(RespondWithError(StatusBadRequest, MissingCredentials), [])
      else
        match HashPassword(lib, p.password, salt)
        case Err(_) =>
          Handled(RespondWithError(StatusInternalServerError, HashFailure), [HashCall(p.password)])
        case Ok(hash) =>
          var effects := [HashCall(p.password), InsertUser(p.email, hash)];
          match Store.CreateUser(users, p.email, hash, meta, fault)
          case InsertError =>
            Handled(RespondWithError(StatusInternalServerError, CreateFailure), effects)
          case Inserted(row) =>
            Handled(RespondWithJson(StatusCreated, UserJson(ResponseFrom(row))), effects)
  }

  /**
   * Registration never hands the plaintext to the store: whatever reaches an
   * insert is the hash `HashPassword` returned for the password.
   */
  lemma CreateUserStoresOnlyHash(lib: Library, users: Users, request: Option<UserParams>,
                                 salt: seq<Byte>, meta: RowMeta, fault: bool)
    ensures var h := CreateUser(lib, users, request, salt, meta, fault);
            forall e :: e in h.effects && e.InsertUser? ==>
              && request.Some?
              && HashPassword(lib, request.value.password, salt) == Ok(e.hashedPassword)
              && e.email == request.value.email
  {
  }

  /** The hash the login handler compares against: stored, or the dummy. */
  function ComparedHash(dummyHash: string, lookup: Lookup<DbUser>): (hash: string)
    ensures lookup.Found? ==> hash == lookup.row.hashedPassword
    ensures !lookup.Found? ==> hash == dummyHash
  {
    if lookup.Found? then lookup.row.hashedPassword else dummyHash
  }

  /**
   * `login`. `fault` is a failure of the lookup query other than "no rows";
   * the handler treats it exactly like an unknown email.
   */
  function Login(auth: AuthPackage, users: Users, request: Option<UserParams>, fault: bool): (h: Handled)
    requires auth.Ready()
    reads auth, auth.dummyPassword
    ensures request.None? ==>
              h == Handled(RespondWithError(StatusInternalServerError, ParseFailure), [])
    ensures request.Some? && !Complete(request.value) ==>
              h == Handled(RespondWithError(StatusBadRequest, MissingCredentials), [])
    ensures request.Some? && Complete(request.value) ==>
              var p := request.value;
              var lookup := GetUserByEmail(users, p.email, fault);
              h.effects == [LookupUser(p.email), CheckCall(p.password, ComparedHash(auth.dummyHash, lookup))]
    ensures h.response.status == StatusOK <==>
              && request.Some? && Complete(request.value)
              && !fault && request.value.email in users
              && CheckPassword(auth.lib, request.value.password, users[request.value.email].hashedPassword) == None
    ensures h.response.status == StatusOK ==>
              h.response == RespondWithJson(StatusOK, UserJson(ResponseFrom(users[request.value.email])))
    ensures request.Some? && Complete(request.value) && h.response.status != StatusOK ==>
              h.response == Unauthorized()
  {
    match request
    case None => Handled(RespondWithError(StatusInternalServerError, ParseFailure), [])
    case Some(p) =>
      if p.email == "" || p.password == "" then
        Handled(RespondWithError(StatusBadRequest, MissingCredentials), [])
      else
        var lookup := GetUserByEmail(users, p.email, fault);
        var hash := ComparedHash(auth.dummyHash, lookup);
        var passErr := CheckPassword(auth.lib, p.password, hash);
        var effects := [LookupUser(p.email), CheckCall(p.password, hash)];
        if !lookup.Found? || passErr.Some? then
          Handled(Unauthorized(), effects)
        else
          Handled(RespondWithJson(StatusOK, UserJson(ResponseFrom(lookup.row))), effects)
  }

  /** Every login with both fields present costs exactly one password check. */
  lemma LoginChecksOnce(auth: AuthPackage, users: Users, params: UserParams, fault: bool)
    requires auth.Ready() && Complete(params)
    ensures CheckCount(Login(auth, users, Some(params), fault).effects) == 1
  {
    var effects := Login(auth, users, Some(params), fault).effects;
    assert effects[1..][1..] == [];
  }

  /**
   * An unknown email and a failed query both lead to a check against the
   * dummy hash, and neither can succeed whatever the password.
   */
  lemma LoginWithoutRowUsesDummy(auth: AuthPackage, users: Users, params: UserParams, fault: bool)
    requires auth.Ready() && Complete(params)
    requires fault || params.email !in users
    ensures var h := Login(auth, users, Some(params), fault);
            && h.effects[1] == CheckCall(params.password, auth.dummyHash)
            && h.response == Unauthorized()
  {
  }

  /**
   * No reply tells an unknown email from a wrong password, a malformed
   * stored hash or a failed query: any two failed logins give the same
   * reply after the same calls, one lookup and one check.
   */
  lemma LoginFailuresIndistinguishable(auth: AuthPackage,
                                       users1: Users, params1: UserParams, fault1: bool,
                                       users2: Users, params2: UserParams, fault2: bool)
    requires auth.Ready() && Complete(params1) && Complete(params2)
    requires Login(auth, users1, Some(params1), fault1).response.status != StatusOK
    requires Login(auth, users2, Some(params2), fault2).response.status != StatusOK
    ensures var h1 := Login(auth, users1, Some(params1), fault1);
            var h2 := Login(auth, users2, Some(params2), fault2);
            && h1.response == h2.response
            && |h1.effects| == |h2.effects| == 2
            && h1.effects[0].LookupUser? && h2.effects[0].LookupUser?
            && h1.effects[1].CheckCall? && h2.effects[1].CheckCall?
  {
  }

  /**
   * On a table filed by email, a successful login answers with the user
   * whose email was sent, and with no other.
   */
  lemma LoginReturnsRequestedUser(auth: AuthPackage, users: Users, params: UserParams, fault: bool)
    requires auth.Ready() && WellKeyed(users)
    ensures var h := Login(auth, users, Some(params), fault);
            h.response.status == StatusOK ==>
              h.response.body.UserJson? && h.response.body.user.email == params.email
  {
  }

  /** All stored hashes were made with the fixed parameters. */
  ghost predicate HashesCurrent(lib: Library, users: Users)
  {
    forall email :: email in users ==> lib.paramsOf(users[email].hashedPassword) == Some(CurrentParams)
  }

  /**
   * The check a login performs costs the same key derivation on every path:
   * the hash it compares against records the fixed parameters, whether it
   * is the stored hash or the dummy, under a self-describing library and
   * whenever the stored hashes carry them.
   */
  lemma LoginCheckUsesCurrentParams(auth: AuthPackage, users: Users, params: UserParams, fault: bool)
    requires auth.Ready() && Complete(params)
    requires SelfDescribing(auth.lib) && HashesCurrent(auth.lib, users)
    ensures var h := Login(auth, users, Some(params), fault);
            auth.lib.paramsOf(h.effects[1].hash) == Some(CurrentParams)
  {
    DummyHashParams(auth);
  }

  /** A user who has just registered can log in with the same password. */
  lemma RegisteredUserCanLogIn(auth: AuthPackage, users: Users, params: UserParams,
                               salt: seq<Byte>, meta: RowMeta)
    requires auth.Ready() && RoundTrip(auth.lib)
    requires CreateUser(auth.lib, users, Some(params), salt, meta, false).response.status == StatusCreated
    ensures var hash := HashPassword(auth.lib, params.password, salt).value;
            var row := DbUser(meta.id, meta.createdAt, meta.updatedAt, params.email, hash);
            var h := Login(auth, users[params.email := row], Some(params), false);
            h.response == RespondWithJson(StatusOK, UserJson(ResponseFrom(row)))
  {
    HashThenCheck(auth.lib, params.password, salt);
  }

  /** Under an idealised library, any other password is refused. */
  lemma RegisteredUserWrongPassword(auth: AuthPackage, users: Users, params: UserParams,
                                    guess: string, salt: seq<Byte>, meta: RowMeta)
    requires auth.Ready() && Discriminating(auth.lib)
    requires CreateUser(auth.lib, users, Some(params), salt, meta, false).response.status == StatusCreated
    requires guess != "" && guess != params.password
    ensures var hash := HashPassword(auth.lib, params.password, salt).value;
            var row := DbUser(meta.id, meta.createdAt, meta.updatedAt, params.email, hash);
            Login(auth, users[params.email := row], Some(UserParams(params.email, guess)), false).response
              == Unauthorized()
  {
    HashThenCheckOther(auth.lib, guess, params.password, salt);
  }
}
