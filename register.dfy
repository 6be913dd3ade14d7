/** `POST /api/auth/register`: create a password user and sign them in. */
module Register {
  import opened Wrappers
  import opened Db
  import opened Auth

  /** `bcrypt.hash(password, SaltRounds)`, its random salt folded into the function. */
  type Hasher = string -> string

  const SaltRounds := 10

  const MissingFields := "Email and password are required"
  const EmailTaken := "User with this email already exists"
  const Registered := "Registration successful"

  /** The response and the tables after one registration request. */
  ghost function RegisterOutcome(t: Tables, body: Body, hash: Hasher, now: int): Outcome
  {
    if body.Unparseable? then Outcome(InternalError, t)
    else
      var email, password := Provided(body.fields, "email"), Provided(body.fields, "password");
      if email.None? || password.None? then Outcome(Plain(400, MissingFields), t)
      else if UserByEmail(t, email.value).Some? then Outcome(Plain(409, EmailTaken), t)
      else if !UserInsertable(t, email.value, Some(hash(password.value))) then Outcome(InternalError, t)
      else
        var u := InsertedUser(t, email.value, Some(hash(password.value)), now);
        Outcome(Response(201, Registered, Some(ViewOf(u)), Some(PayloadOf(u))),
                UserInserted(t, email.value, Some(hash(password.value)), now).value)
  }

  method Post(db: Database, body: Body, hash: Hasher, now: int) returns (resp: Response)
    requires db.Valid()
    modifies db
    ensures db.Valid()
    ensures resp == RegisterOutcome(old(db.State()), body, hash, now).response
    ensures db.State() == RegisterOutcome(old(db.State()), body, hash, now).tables
  {
    if body.Unparseable? {
      return InternalError;
    }
    var email, password := Provided(body.fields, "email"), Provided(body.fields, "password");
    if email.None? || password.None? {
      return Plain(400, MissingFields);
    }
    var existingUser := db.FindUserByEmail(email.value);
    if existingUser.Some? {
      return Plain(409, EmailTaken);
    }
    var hashedPassword := hash(password.value);
    var newUser := db.InsertUser(email.value, Some(hashedPassword), now);
    if newUser.None? {
      // The insert threw; the handler's `catch` answers.
      return InternalError;
    }
    resp := Response(201, Registered, Some(ViewOf(newUser.value)), Some(PayloadOf(newUser.value)));
  }

  /** A body without a non-empty email and password is refused with 400 and nothing stored. */
  lemma MissingFieldsRejected(t: Tables, fields: map<string, string>, hash: Hasher, now: int)
    requires Provided(fields, "email").None? || Provided(fields, "password").None?
    ensures RegisterOutcome(t, Fields(fields), hash, now) == Outcome(Plain(400, MissingFields), t)
  {
  }

  /** An email some user already has is refused with 409 and the users table is unchanged. */
  lemma DuplicateEmailRejected(t: Tables, fields: map<string, string>, hash: Hasher, now: int, id: Id)
    requires Provided(fields, "email").Some? && Provided(fields, "password").Some?
    requires id in t.users && t.users[id].email == fields["email"]
    ensures RegisterOutcome(t, Fields(fields), hash, now) == Outcome(Plain(409, EmailTaken), t)
  {
  }

  /**
   * For an unused email the insert decides. When the email and the hash fit their
   * `varchar(255)` columns and no user has the stored email, exactly one user is added, with
   * the stored email and hash and the default role and plan, and the 201 signs in that user.
   * Otherwise the insert throws: 500, and nothing is stored. An email and a hash of at most
   * 255 characters always register.
   */
  lemma RegistrationCreatesUser(t: Tables, fields: map<string, string>, hash: Hasher, now: int)
    requires t.Valid()
    requires Provided(fields, "email").Some? && Provided(fields, "password").Some?
    requires forall id :: id in t.users ==> t.users[id].email != fields["email"]
    ensures var o := RegisterOutcome(t, Fields(fields), hash, now);
      var email, hashed := Varchar(fields["email"]), Varchar(hash(fields["password"]));
      (o.response.status == 201 <==>
        email.Some? && hashed.Some? && forall id :: id in t.users ==> t.users[id].email != email.value) &&
      (o.response.status != 201 ==> o == Outcome(InternalError, t))
    ensures var o := RegisterOutcome(t, Fields(fields), hash, now);
      o.response.status == 201 ==>
        var u := User(t.nextId, Varchar(fields["email"]).value, Varchar(hash(fields["password"])),
                      AuthenticatedUser, FreePlan, None, now, now);
        o.tables.Valid() && t.nextId !in t.users && o.tables.users == t.users[t.nextId := u] &&
        o.tables.accounts == t.accounts && o.tables.resetTokens == t.resetTokens &&
        o.response.user == Some(UserView(u.id, u.email, u.role, u.plan)) &&
        o.response.session == Some(TokenPayload(u.id, u.email, u.role, u.plan))
    ensures |fields["email"]| <= VarcharLimit && |hash(fields["password"])| <= VarcharLimit ==>
      RegisterOutcome(t, Fields(fields), hash, now).response.status == 201
  {
    UserByEmailSpec(t, fields["email"]);
    UserInsertedSpec(t, fields["email"], Some(hash(fields["password"])), now);
  }

  /**
   * Registration succeeds exactly when both fields are given, the email is unused, and the
   * insert takes the email and the hash; every other answer leaves the tables as they were.
   */
  lemma RegistrationSucceedsIff(t: Tables, body: Body, hash: Hasher, now: int)
    requires t.Valid()
    ensures RegisterOutcome(t, body, hash, now).response.status == 201 <==>
      body.Fields? && Provided(body.fields, "email").Some? && Provided(body.fields, "password").Some? &&
      (forall id :: id in t.users ==> t.users[id].email != body.fields["email"]) &&
      Varchar(body.fields["email"]).Some? && Varchar(hash(body.fields["password"])).Some? &&
      (forall id :: id in t.users ==> t.users[id].email != Varchar(body.fields["email"]).value)
    ensures RegisterOutcome(t, body, hash, now).response.status != 201 ==> RegisterOutcome(t, body, hash, now).tables == t
  {
    if body.Fields? && Provided(body.fields, "email").Some? {
      UserByEmailSpec(t, body.fields["email"]);
    }
  }
}
