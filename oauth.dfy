/**
 * Google sign-in (`findOrCreateOAuthUser` and the email guard of `handleGoogleCallback`):
 * find the user through their linked account, or through their email, or create them, and
 * link the account. The statements run one by one, outside any transaction.
 */
module OAuth {
  import opened Wrappers
  import opened Db
  import opened Auth

  /** The profile Google's userinfo endpoint returns (its `sub` is the account id). */
  datatype GoogleProfile = GoogleProfile(id: string, email: string, name: string)

  const Google := "google"

  /** The exceptions these functions throw. */
  datatype SignInError =
    | NoEmail          // the profile has no email address
    | AccountWithoutUser  // the linked account's user row is gone; reading its fields throws
    | UserRejected     // the user insert threw: the email does not fit its column, or is taken
    | LinkRejected     // the account insert broke a constraint

  datatype SignedIn = SignedIn(user: User, session: TokenPayload)

  datatype SignInOutcome = SignInOutcome(result: Result<SignedIn, SignInError>, tables: Tables)

  ghost function FindOrCreate(t: Tables, provider: string, profile: GoogleProfile, now: int): SignInOutcome
  {
    var key := AccountKey(provider, profile.id);
    if key in t.accounts then
      var userId := t.accounts[key].userId;
      if userId in t.users then SignInOutcome(Ok(SignedIn(t.users[userId], PayloadOf(t.users[userId]))), t)
      else SignInOutcome(Err(AccountWithoutUser), t)
    else
      var found := UserByEmail(t, profile.email);
      if found.None? && !UserInsertable(t, profile.email, None) then SignInOutcome(Err(UserRejected), t)
      else
        var user := if found.Some? then found.value else InsertedUser(t, profile.email, None, now);
        var t1 := if found.Some? then t else UserInserted(t, profile.email, None, now).value;
        match AccountLinked(t1, user.id, key)
        case None => SignInOutcome(Err(LinkRejected), t1)
        case Some(t2) => SignInOutcome(Ok(SignedIn(user, PayloadOf(user))), t2)
  }

  /** `handleGoogleCallback` once the code exchange and the profile fetch have returned. */
  ghost function GoogleSignIn(t: Tables, profile: GoogleProfile, now: int): SignInOutcome
  {
    if profile.email == "" then SignInOutcome(Err(NoEmail), t)
    else FindOrCreate(t, Google, profile, now)
  }

  method FindOrCreateOAuthUser(db: Database, provider: string, profile: GoogleProfile, now: int)
    returns (result: Result<SignedIn, SignInError>)
    requires db.Valid()
    modifies db
    ensures db.Valid()
    ensures result == FindOrCreate(old(db.State()), provider, profile, now).result
    ensures db.State() == FindOrCreate(old(db.State()), provider, profile, now).tables
  {
    var key := AccountKey(provider, profile.id);
    if key in db.accounts {
      var userId := db.accounts[key].userId;
      if userId !in db.users {
        return Err(AccountWithoutUser);
      }
      var user := db.users[userId];
      return Ok(SignedIn(user, PayloadOf(user)));
    }
    var user := db.FindUserByEmail(profile.email);
    UserByEmailSpec(db.State(), profile.email);
    var u: User;
    if user.None? {
      var inserted := db.InsertUser(profile.email, None, now);
      if inserted.None? {
        return Err(UserRejected);
      }
      u := inserted.value;
    } else {
      u := user.value;
    }
    var linked := db.LinkAccount(u.id, key);
    if !linked {
      return Err(LinkRejected);
    }
    result := Ok(SignedIn(u, PayloadOf(u)));
  }

  method HandleGoogleCallback(db: Database, profile: GoogleProfile, now: int) returns (result: Result<SignedIn, SignInError>)
    requires db.Valid()
    modifies db
    ensures db.Valid()
    ensures result == GoogleSignIn(old(db.State()), profile, now).result
    ensures db.State() == GoogleSignIn(old(db.State()), profile, now).tables
  {
    if profile.email == "" {
      return Err(NoEmail);
    }
    result := FindOrCreateOAuthUser(db, Google, profile, now);
  }

  /** A profile without an email is refused before any table is read or written. */
  lemma EmptyEmailRejected(t: Tables, profile: GoogleProfile, now: int)
    requires profile.email == ""
    ensures GoogleSignIn(t, profile, now) == SignInOutcome(Err(NoEmail), t)
  {
  }

  /** A known account signs in its user and writes nothing. */
  lemma KnownAccountSignsIn(t: Tables, provider: string, profile: GoogleProfile, now: int)
    requires AccountKey(provider, profile.id) in t.accounts
    requires t.accounts[AccountKey(provider, profile.id)].userId in t.users
    ensures var o := FindOrCreate(t, provider, profile, now);
      o.tables == t && o.result.Ok? &&
      o.result.value.user == t.users[t.accounts[AccountKey(provider, profile.id)].userId]
  {
  }

  /**
   * Without a linked account, a user with the profile's email is reused: no user is created,
   * and the link fails only when that user already has an account with the provider.
   */
  lemma KnownEmailLinked(t: Tables, provider: string, profile: GoogleProfile, now: int, id: Id)
    requires t.Valid()
    requires AccountKey(provider, profile.id) !in t.accounts
    requires id in t.users && t.users[id].email == profile.email
    ensures var o := FindOrCreate(t, provider, profile, now);
      o.tables.users == t.users &&
      (o.result.Err? <==> exists k :: k in t.accounts && t.accounts[k].userId == id && k.provider == provider) &&
      (o.result.Err? ==> o.tables == t) &&
      (o.result.Ok? ==>
        o.result.value.user == t.users[id] &&
        o.tables.accounts == t.accounts[AccountKey(provider, profile.id) := Account(id, provider, profile.id)])
  {
    UserByEmailSpec(t, profile.email);
  }

  /**
   * Without a linked account or a user with the email, the user insert decides. When the
   * email fits its column and no user has the stored email, exactly one user is created,
   * with the stored email, no password and the default role and plan, and the account is
   * linked to them. Otherwise the insert throws and nothing is written. Either way no user
   * is left without its account, and an email of at most 255 characters always signs in.
   */
  lemma NewUserCreatedAndLinked(t: Tables, provider: string, profile: GoogleProfile, now: int)
    requires t.Valid()
    requires AccountKey(provider, profile.id) !in t.accounts
    requires forall id :: id in t.users ==> t.users[id].email != profile.email
    ensures var o := FindOrCreate(t, provider, profile, now);
      (o.result.Ok? <==>
        Varchar(profile.email).Some? && forall id :: id in t.users ==> t.users[id].email != Varchar(profile.email).value) &&
      (o.result.Err? ==> o == SignInOutcome(Err(UserRejected), t))
    ensures var o := FindOrCreate(t, provider, profile, now);
      o.result.Ok? ==>
        var u := User(t.nextId, Varchar(profile.email).value, None, AuthenticatedUser, FreePlan, None, now, now);
        o.result == Ok(SignedIn(u, TokenPayload(u.id, u.email, u.role, u.plan))) &&
        t.nextId !in t.users && o.tables.users == t.users[t.nextId := u] &&
        o.tables.accounts == t.accounts[AccountKey(provider, profile.id) := Account(u.id, provider, profile.id)]
    ensures |profile.email| <= VarcharLimit ==> FindOrCreate(t, provider, profile, now).result.Ok?
  {
    UserByEmailSpec(t, profile.email);
    UserInsertedSpec(t, profile.email, None, now);
    if UserInsertable(t, profile.email, None) {
      var t1 := UserInserted(t, profile.email, None, now).value;
      assert CanLink(t1, t.nextId, AccountKey(provider, profile.id));
    }
  }

  /**
   * After a successful sign-in the account links to the returned user, and the session
   * payload carries that user's id, email, role and plan.
   */
  lemma SignInLinksReturnedUser(t: Tables, provider: string, profile: GoogleProfile, now: int)
    requires t.Valid()
    ensures var o := FindOrCreate(t, provider, profile, now);
      o.tables.Valid() &&
      (o.result.Ok? ==>
        var u := o.result.value.user;
        AccountKey(provider, profile.id) in o.tables.accounts &&
        o.tables.accounts[AccountKey(provider, profile.id)].userId == u.id &&
        u.id in o.tables.users && o.tables.users[u.id] == u &&
        o.result.value.session == TokenPayload(u.id, u.email, u.role, u.plan))
    ensures FindOrCreate(t, provider, profile, now).result.Err? ==> FindOrCreate(t, provider, profile, now).tables == t
  {
    var key := AccountKey(provider, profile.id);
    if key !in t.accounts {
      UserByEmailSpec(t, profile.email);
      var found := UserByEmail(t, profile.email);
      if found.Some? {
        AccountLinkedSpec(t, found.value.id, key);
      } else if UserInsertable(t, profile.email, None) {
        NewUserCreatedAndLinked(t, provider, profile, now);
        UserInsertedSpec(t, profile.email, None, now);
        AccountLinkedSpec(UserInserted(t, profile.email, None, now).value, t.nextId, key);
      }
    }
  }
}
