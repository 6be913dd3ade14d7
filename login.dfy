/** `POST /api/auth/login`: a read-only credential check that signs the user in. */
module Login {
  import opened Wrappers
  import opened Db
  import opened Auth
  import Register

  /** `bcrypt.compare(password, hash)`. */
  type Verifier = (string, string) -> bool

  const MissingFields := "Email and password are required"
  const InvalidCredentials := "Invalid credentials"
  const LoggedIn := "Login successful"

  /** The one response every failed credential check gives. */
  const Rejected := Plain(401, InvalidCredentials)

  /**
   * The response to a login request; the tables are only read. Only a 200 returns a user and
   * sets the session cookie, and the cookie's payload is the user returned.
   */
  ghost function LoginResponse(t: Tables, body: Body, compare: Verifier): (r: Response)
    ensures r.status in {200, 400, 401, 500}
    ensures r.user.Some? <==> r.status == 200
    ensures r.session.Some? <==> r.status == 200
    ensures r.status == 200 ==>
      r.session.value == TokenPayload(r.user.value.id, r.user.value.email, r.user.value.role, r.user.value.plan)
  {
    if body.Unparseable? then InternalError
    else
      var email, password := Provided(body.fields, "email"), Provided(body.fields, "password");
      if email.None? || password.None? then Plain(400, MissingFields)
      else
        var user := UserByEmail(t, email.value);
        if user.None? || user.value.hashedPassword.None? || user.value.hashedPassword.value == "" then Rejected
        else if !compare(password.value, user.value.hashedPassword.value) then Rejected
        else Response(200, LoggedIn, Some(ViewOf(user.value)), Some(PayloadOf(user.value)))
  }

  /** A body without a non-empty email and password is refused with 400. */
  lemma MissingFieldsRejected(t: Tables, fields: map<string, string>, compare: Verifier)
    requires Provided(fields, "email").None? || Provided(fields, "password").None?
    ensures LoginResponse(t, Fields(fields), compare) == Plain(400, MissingFields)
  {
  }

  /**
   * An unknown email, a user without a password (signed up through OAuth, or a stored empty
   * hash) and a wrong password all get the same 401 response, and these are the only causes
   * of a 401.
   */
  lemma FailuresIndistinguishable(t: Tables, email: string, password: string, fields: map<string, string>, compare: Verifier)
    requires t.Valid()
    requires fields == map["email" := email, "password" := password] && email != "" && password != ""
    ensures LoginResponse(t, Fields(fields), compare).status == 401 <==>
      (forall id :: id in t.users ==> t.users[id].email != email) ||
      (exists id :: id in t.users && t.users[id].email == email &&
        (t.users[id].hashedPassword.None? || t.users[id].hashedPassword.value == "")) ||
      (exists id :: id in t.users && t.users[id].email == email && t.users[id].hashedPassword.Some? &&
        !compare(password, t.users[id].hashedPassword.value))
    ensures LoginResponse(t, Fields(fields), compare).status == 401 ==> LoginResponse(t, Fields(fields), compare) == Rejected
  {
    UserByEmailSpec(t, email);
  }

  /** Login succeeds exactly for the stored user with a non-empty hash that matches, and signs in that user. */
  lemma SuccessSignsInStoredUser(t: Tables, body: Body, compare: Verifier)
    requires t.Valid()
    ensures LoginResponse(t, body, compare).status == 200 <==>
      body.Fields? && Provided(body.fields, "email").Some? && Provided(body.fields, "password").Some? &&
      exists id :: id in t.users && t.users[id].email == body.fields["email"] && t.users[id].hashedPassword.Some? &&
        t.users[id].hashedPassword.value != "" && compare(body.fields["password"], t.users[id].hashedPassword.value)
    ensures LoginResponse(t, body, compare).status == 200 ==>
      exists id :: id in t.users && t.users[id].email == body.fields["email"] &&
        LoginResponse(t, body, compare).user == Some(UserView(id, t.users[id].email, t.users[id].role, t.users[id].plan)) &&
        LoginResponse(t, body, compare).session == Some(TokenPayload(id, t.users[id].email, t.users[id].role, t.users[id].plan))
  {
    if body.Fields? && Provided(body.fields, "email").Some? {
      UserByEmailSpec(t, body.fields["email"]);
    }
  }

  /**
   * A user who has just registered can log in with the same email and password, and is
   * signed in as the same user, when the stored email is the one given (it fits its column)
   * and the verifier accepts the password against its stored, non-empty hash. An email cut
   * to fit its column is never found again: logging in with it gives 401.
   */
  lemma RegisterThenLogin(t: Tables, fields: map<string, string>, hash: Register.Hasher, now: int, compare: Verifier)
    requires t.Valid()
    requires Provided(fields, "email").Some? && Provided(fields, "password").Some?
    requires Register.RegisterOutcome(t, Fields(fields), hash, now).response.status == 201
    ensures var o := Register.RegisterOutcome(t, Fields(fields), hash, now);
      var stored := Varchar(hash(fields["password"]));
      |fields["email"]| <= VarcharLimit && stored.Some? && stored.value != "" && compare(fields["password"], stored.value) ==>
        var r := LoginResponse(o.tables, Fields(fields), compare);
        r.status == 200 && r.session == o.response.session && r.user == o.response.user
    ensures |fields["email"]| > VarcharLimit ==>
      LoginResponse(Register.RegisterOutcome(t, Fields(fields), hash, now).tables, Fields(fields), compare) == Rejected
  {
    Register.RegistrationSucceedsIff(t, Fields(fields), hash, now);
    Register.RegistrationCreatesUser(t, fields, hash, now);
    var o := Register.RegisterOutcome(t, Fields(fields), hash, now);
    UserByEmailSpec(o.tables, fields["email"]);
    if |fields["email"]| > VarcharLimit {
      assert o.tables.users[t.nextId].email != fields["email"];
    }
  }
}
