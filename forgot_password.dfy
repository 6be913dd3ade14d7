/**
 * `POST /api/auth/forgot-password`: replace the user's reset tokens by one fresh token valid
 * for an hour, and mail them a link carrying it.
 */
module ForgotPassword {
  import opened Wrappers
  import opened Db
  import opened Auth

  /** One hour, in milliseconds. */
  const TokenExpirationMs := 60 * 60 * 1000

  const EmailRequired := "Email is required"
  const LinkSent := "If an account with that email exists, a password reset link has been sent."

  const ResetPage := "http://localhost:9002/reset-password?token="

  /** The reset mail: recipient and link. */
  datatype Mail = Mail(to: string, link: string)

  datatype ForgotOutcome = ForgotOutcome(response: Response, tables: Tables, mail: Option<Mail>)

  /** What `randomBytes(32).toString('hex')` gives: 64 lower-case hex digits. */
  predicate RandomToken(token: string)
  {
    |token| == 64 && forall i :: 0 <= i < |token| ==> token[i] in "0123456789abcdef"
  }

  /**
   * The outcome of one request at time `now` (milliseconds), where `token` is the generated
   * token (a `RandomToken` when the handler makes it).
   */
  ghost function ForgotOutcomeOf(t: Tables, body: Body, token: string, now: int): ForgotOutcome
  {
    if body.Unparseable? then ForgotOutcome(InternalError, t, None)
    else
      var email := Provided(body.fields, "email");
      if email.None? then ForgotOutcome(Plain(400, EmailRequired), t, None)
      else
        var user := UserByEmail(t, email.value);
        if user.None? then ForgotOutcome(Plain(200, LinkSent), t, None)
        else
          match TokenReplaced(t, user.value.id, token, now + TokenExpirationMs)
          case None => ForgotOutcome(InternalError, t, None)
          case Some(t') => ForgotOutcome(Plain(200, LinkSent), t', Some(Mail(user.value.email, ResetPage + token)))
  }

  method Post(db: Database, body: Body, token: string, now: int) returns (resp: Response, mail: Option<Mail>)
    requires db.Valid()
    modifies db
    ensures db.Valid()
    ensures resp == ForgotOutcomeOf(old(db.State()), body, token, now).response
    ensures db.State() == ForgotOutcomeOf(old(db.State()), body, token, now).tables
    ensures mail == ForgotOutcomeOf(old(db.State()), body, token, now).mail
  {
    mail := None;
    if body.Unparseable? {
      return InternalError, None;
    }
    var email := Provided(body.fields, "email");
    if email.None? {
      return Plain(400, EmailRequired), None;
    }
    var user := db.FindUserByEmail(email.value);
    if user.None? {
      return Plain(200, LinkSent), None;
    }
    UserByEmailSpec(db.State(), email.value);
    var expiresAt := now + TokenExpirationMs;
    var ok := db.ReplaceResetToken(user.value.id, token, expiresAt);
    if !ok {
      return InternalError, None;
    }
    var resetLink := ResetPage + token;
    mail := Some(Mail(user.value.email, resetLink));
    resp := Plain(200, LinkSent);
  }

  /** A body without an email is refused with 400; nothing is stored and no mail is sent. */
  lemma MissingEmailRejected(t: Tables, fields: map<string, string>, token: string, now: int)
    requires Provided(fields, "email").None?
    ensures ForgotOutcomeOf(t, Fields(fields), token, now) == ForgotOutcome(Plain(400, EmailRequired), t, None)
  {
  }

  /**
   * An unknown email gets exactly the response a known one gets, but no token is written
   * and no mail is sent.
   */
  lemma UnknownEmailIndistinguishable(t: Tables, fields: map<string, string>, token: string, now: int)
    requires t.Valid()
    requires Provided(fields, "email").Some?
    requires forall id :: id in t.users ==> t.users[id].email != fields["email"]
    ensures ForgotOutcomeOf(t, Fields(fields), token, now) == ForgotOutcome(Plain(200, LinkSent), t, None)
  {
    UserByEmailSpec(t, fields["email"]);
  }

  /** Every 200 this handler sends is the same response, whether or not the user exists. */
  lemma SuccessResponseUniform(t: Tables, body: Body, token: string, now: int)
    ensures ForgotOutcomeOf(t, body, token, now).response.status == 200 ==>
      ForgotOutcomeOf(t, body, token, now).response == Plain(200, LinkSent)
  {
  }

  /**
   * For a known user, either the token table is replaced (the user then owns exactly the new
   * token, expiring an hour from now, other users' tokens untouched, and the link carrying
   * the token is mailed to them) or nothing changes and the response is 500. The 500 comes
   * exactly from a token too long for its column or one another user already holds.
   */
  lemma KnownEmailReplacesToken(t: Tables, fields: map<string, string>, token: string, now: int, id: Id)
    requires t.Valid()
    requires Provided(fields, "email").Some?
    requires id in t.users && t.users[id].email == fields["email"]
    ensures var o := ForgotOutcomeOf(t, Fields(fields), token, now);
      o.tables.Valid() && o.tables.users == t.users && o.tables.accounts == t.accounts &&
      (o.response.status == 500 <==>
        Varchar(token).None? ||
        exists j :: j in t.resetTokens && t.resetTokens[j].userId != id && t.resetTokens[j].token == Varchar(token).value) &&
      (o.response.status == 500 ==> o.tables == t && o.mail.None?) &&
      (o.response.status != 500 ==>
        o.response == Plain(200, LinkSent) &&
        o.mail == Some(Mail(fields["email"], ResetPage + token)) &&
        t.nextId in o.tables.resetTokens &&
        o.tables.resetTokens[t.nextId] == ResetToken(t.nextId, id, Varchar(token).value, now + 3600000) &&
        (forall j :: j in o.tables.resetTokens && o.tables.resetTokens[j].userId == id ==> j == t.nextId) &&
        (forall j :: j in t.resetTokens && t.resetTokens[j].userId != id ==>
          j in o.tables.resetTokens && o.tables.resetTokens[j] == t.resetTokens[j]) &&
        (forall j :: j in o.tables.resetTokens && o.tables.resetTokens[j].userId != id ==> j in t.resetTokens))
  {
    UserByEmailSpec(t, fields["email"]);
    TokenReplacedSpec(t, id, token, now + TokenExpirationMs);
  }
}
