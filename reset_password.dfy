/**
 * `POST /api/auth/reset-password`: redeem an unexpired reset token once, setting the owner's
 * new password hash.
 */
module ResetPassword {
  import opened Wrappers
  import opened Db
  import opened Auth
  import ForgotPassword

  type Hasher = string -> string

  const MissingFields := "Token and new password are required"
  const InvalidToken := "Invalid or expired reset token"
  const PasswordReset := "Password successfully reset. You can now log in."

  /** The response and the tables after one request at time `now` (milliseconds). */
  ghost function ResetOutcome(t: Tables, body: Body, hash: Hasher, now: int): Outcome
  {
    if body.Unparseable? then Outcome(InternalError, t)
    else
      var token, newPassword := Provided(body.fields, "token"), Provided(body.fields, "newPassword");
      if token.None? || newPassword.None? then Outcome(Plain(400, MissingFields), t)
      else
        var resetToken := LiveToken(t, token.value, now);
        if resetToken.None? || resetToken.value.userId !in t.users then Outcome(Plain(400, InvalidToken), t)
        else
          match TokenConsumed(t, resetToken.value.userId, hash(newPassword.value), now, token.value)
          case None => Outcome(InternalError, t)
          case Some(t') => Outcome(Plain(200, PasswordReset), t')
  }

  method Post(db: Database, body: Body, hash: Hasher, now: int) returns (resp: Response)
    requires db.Valid()
    modifies db
    ensures db.Valid()
    ensures resp == ResetOutcome(old(db.State()), body, hash, now).response
    ensures db.State() == ResetOutcome(old(db.State()), body, hash, now).tables
  {
    if body.Unparseable? {
      return InternalError;
    }
    var token, newPassword := Provided(body.fields, "token"), Provided(body.fields, "newPassword");
    if token.None? || newPassword.None? {
      return Plain(400, MissingFields);
    }
    var resetToken := db.FindLiveToken(token.value, now);
    if resetToken.None? || resetToken.value.userId !in db.users {
      return Plain(400, InvalidToken);
    }
    var hashedPassword := hash(newPassword.value);
    var ok := db.ConsumeResetToken(resetToken.value.userId, hashedPassword, now, token.value);
    if !ok {
      // The transaction threw; the handler's `catch` answers.
      return InternalError;
    }
    resp := Plain(200, PasswordReset);
  }

  /** A body without a non-empty token and new password is refused with 400. */
  lemma MissingFieldsRejected(t: Tables, fields: map<string, string>, hash: Hasher, now: int)
    requires Provided(fields, "token").None? || Provided(fields, "newPassword").None?
    ensures ResetOutcome(t, Fields(fields), hash, now) == Outcome(Plain(400, MissingFields), t)
  {
  }

  /**
   * A token that is unknown, expired (`expiresAt <= now`) or whose user is gone is refused
   * with 400 and nothing changes; otherwise the reset succeeds, unless the new hash does not
   * fit its `varchar(255)` column, when the transaction throws: 500 and nothing changes.
   */
  lemma InvalidTokenRejected(t: Tables, fields: map<string, string>, hash: Hasher, now: int)
    requires t.Valid()
    requires Provided(fields, "token").Some? && Provided(fields, "newPassword").Some?
    ensures var o := ResetOutcome(t, Fields(fields), hash, now);
      (o.response.status == 400 <==>
        forall id :: id in t.resetTokens && t.resetTokens[id].token == fields["token"] ==>
          t.resetTokens[id].expiresAt <= now || t.resetTokens[id].userId !in t.users) &&
      (o.response.status == 400 ==> o == Outcome(Plain(400, InvalidToken), t)) &&
      (o.response.status != 400 && Varchar(hash(fields["newPassword"])).Some? ==> o.response == Plain(200, PasswordReset)) &&
      (o.response.status != 400 && Varchar(hash(fields["newPassword"])).None? ==> o == Outcome(InternalError, t))
  {
    LiveTokenSpec(t, fields["token"], now);
    if LiveToken(t, fields["token"], now).Some? {
      var r := LiveToken(t, fields["token"], now).value;
      TokenConsumedSpec(t, r.userId, hash(fields["newPassword"]), now, fields["token"]);
    }
  }

  /**
   * For a live token with an owner, the reset sets the owner's hash to the stored hash of the
   * new password and `updatedAt` to now, leaves every other user as they were, and removes
   * the token; when that hash does not fit its column, it answers 500 and changes nothing.
   */
  lemma ResetUpdatesOwner(t: Tables, fields: map<string, string>, hash: Hasher, now: int, id: Id)
    requires t.Valid()
    requires Provided(fields, "token").Some? && Provided(fields, "newPassword").Some?
    requires id in t.resetTokens && t.resetTokens[id].token == fields["token"] && t.resetTokens[id].expiresAt > now
    requires t.resetTokens[id].userId in t.users
    ensures Varchar(hash(fields["newPassword"])).None? ==>
      ResetOutcome(t, Fields(fields), hash, now) == Outcome(InternalError, t)
    ensures var o := ResetOutcome(t, Fields(fields), hash, now);
      var owner := t.resetTokens[id].userId;
      Varchar(hash(fields["newPassword"])).Some? ==>
      o.response == Plain(200, PasswordReset) && o.tables.Valid() &&
      o.tables.users.Keys == t.users.Keys &&
      o.tables.users[owner] == t.users[owner].(hashedPassword := Varchar(hash(fields["newPassword"])), updatedAt := now) &&
      (forall u :: u in t.users && u != owner ==> o.tables.users[u] == t.users[u]) &&
      (forall j :: j in o.tables.resetTokens ==> o.tables.resetTokens[j].token != fields["token"]) &&
      o.tables.accounts == t.accounts
  {
    LiveTokenSpec(t, fields["token"], now);
    TokenConsumedSpec(t, t.resetTokens[id].userId, hash(fields["newPassword"]), now, fields["token"]);
  }

  /** A token works once: any later request with it, at any time, is refused with 400. */
  lemma TokenSingleUse(t: Tables, fields: map<string, string>, hash: Hasher, now: int, again: map<string, string>, later: int)
    requires t.Valid()
    requires ResetOutcome(t, Fields(fields), hash, now).response.status == 200
    requires Provided(again, "token") == Provided(fields, "token") && Provided(again, "newPassword").Some?
    ensures ResetOutcome(ResetOutcome(t, Fields(fields), hash, now).tables, Fields(again), hash, later).response ==
      Plain(400, InvalidToken)
  {
    var token := fields["token"];
    var r := LiveToken(t, token, now).value;
    TokenConsumedSpec(t, r.userId, hash(fields["newPassword"]), now, token);
  }

  /**
   * The token the forgot-password handler issues at time `issued` resets the password at any
   * time before it expires, an hour later, and at no time after (for a new password whose
   * hash fits its column; otherwise the reset answers 500).
   */
  lemma IssuedTokenValidForAnHour(
    t: Tables, forgot: map<string, string>, token: string, issued: int, reset: map<string, string>, hash: Hasher, now: int)
    requires t.Valid()
    requires ForgotPassword.RandomToken(token)
    requires ForgotPassword.ForgotOutcomeOf(t, Fields(forgot), token, issued).mail.Some?
    requires Provided(reset, "token") == Some(token) && Provided(reset, "newPassword").Some?
    ensures var t' := ForgotPassword.ForgotOutcomeOf(t, Fields(forgot), token, issued).tables;
      ResetOutcome(t', Fields(reset), hash, now).response.status == 200 <==>
        now < issued + 3600000 && Varchar(hash(reset["newPassword"])).Some?
  {
    var email := forgot["email"];
    UserByEmailSpec(t, email);
    var u := UserByEmail(t, email).value;
    ForgotPassword.KnownEmailReplacesToken(t, forgot, token, issued, u.id);
    var t' := ForgotPassword.ForgotOutcomeOf(t, Fields(forgot), token, issued).tables;
    LiveTokenSpec(t', token, now);
    assert t'.resetTokens[t.nextId].token == token;
    TokenConsumedSpec(t', u.id, hash(reset["newPassword"]), now, token);
  }
}
