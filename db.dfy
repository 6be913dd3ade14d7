/**
 * The application's tables as maps keyed by primary key, the enum values and column defaults
 * of the schema, the statements the request handlers run against them, and a `Database`
 * object whose fields those handlers update.
 *
 * Generated UUIDs (the `defaultRandom()` columns and `uuidv4()`) are drawn from the counter
 * `nextId`, which only grows, so every generated id is fresh. Foreign keys to the reference
 * tables (languages, categories, difficulty levels) are not modelled; the foreign key from
 * `answers.questionId` to `questions.id` is.
 */
module Db {
  import opened Wrappers

  type Id = nat

  datatype Role = Guest | AuthenticatedUser | Admin
  datatype Plan = FreePlan | Express | Premium

  /** Column defaults of `users.role` and `users.plan`. */
  const DefaultRole: Role := AuthenticatedUser
  const DefaultPlan: Plan := FreePlan

  datatype User = User(
    id: Id,
    email: string,
    hashedPassword: Option<string>,
    role: Role,
    plan: Plan,
    targetLevelId: Option<string>,
    createdAt: int,
    updatedAt: int)

  /**
   * The pair the handlers look accounts up by. The schema declares no key on it (only an
   * index); the model keys the table by it, see `CanLink`.
   */
  datatype AccountKey = AccountKey(provider: string, providerAccountId: string)
  datatype Account = Account(userId: Id, provider: string, providerAccountId: string)

  datatype ResetToken = ResetToken(id: Id, userId: Id, token: string, expiresAt: int)

  /** A `questions` row; `None` is SQL NULL. */
  datatype QuestionRow = QuestionRow(
    id: Id,
    question: string,
    explanation: string,
    languageId: Option<string>,
    difficultyLevelId: Option<string>,
    categoryId: Option<string>)

  datatype AnswerRow = AnswerRow(id: Id, questionId: Id, answerText: string, isCorrect: bool)

  datatype Tables = Tables(
    users: map<Id, User>,
    accounts: map<AccountKey, Account>,
    resetTokens: map<Id, ResetToken>,
    questions: map<Id, QuestionRow>,
    answers: map<Id, AnswerRow>,
    nextId: Id)
  {
    /**
     * Keys agree with the rows, generated ids (and the user ids rows refer to) lie below the
     * supply counter, and the unique
     * constraints hold: `users.email`, `password_reset_tokens.token` and
     * `accounts (user_id, provider)`.
     */
    predicate Valid()
    {
      (forall id :: id in users ==> users[id].id == id && id < nextId) &&
      (forall a, b :: a in users && b in users && users[a].email == users[b].email ==> a == b) &&
      (forall k :: k in accounts ==>
        accounts[k].provider == k.provider && accounts[k].providerAccountId == k.providerAccountId &&
        accounts[k].userId < nextId) &&
      (forall k1, k2 ::
        (k1 in accounts && k2 in accounts && accounts[k1].userId == accounts[k2].userId && k1.provider == k2.provider) ==> k1 == k2) &&
      (forall id :: id in resetTokens ==>
        resetTokens[id].id == id && id < nextId && resetTokens[id].userId < nextId) &&
      (forall a, b ::
        (a in resetTokens && b in resetTokens && resetTokens[a].token == resetTokens[b].token) ==> a == b)
    }
  }

  // ---------------------------------------------------------------------------------------
  // Queries

  /** `findFirst` on `users` where `email` equals the given value. */
  ghost function UserByEmail(t: Tables, email: string): Option<User>
  {
    if exists id :: id in t.users && t.users[id].email == email then
      var id :| id in t.users && t.users[id].email == email;
      Some(t.users[id])
    else None
  }

  /** `findFirst` on `password_reset_tokens` where `token` matches and `expiresAt > now`. */
  ghost function LiveToken(t: Tables, token: string, now: int): Option<ResetToken>
  {
    if exists id :: id in t.resetTokens && t.resetTokens[id].token == token && t.resetTokens[id].expiresAt > now then
      var id :| id in t.resetTokens && t.resetTokens[id].token == token && t.resetTokens[id].expiresAt > now;
      Some(t.resetTokens[id])
    else None
  }

  /** Some user has this email, or none does; when one does, it is the one found. */
  lemma UserByEmailSpec(t: Tables, email: string)
    requires t.Valid()
    ensures UserByEmail(t, email).None? <==> forall id :: id in t.users ==> t.users[id].email != email
    ensures forall id :: id in t.users && t.users[id].email == email ==> UserByEmail(t, email) == Some(t.users[id])
    ensures UserByEmail(t, email).Some? ==>
      var u := UserByEmail(t, email).value;
      u.email == email && u.id in t.users && t.users[u.id] == u
  {
  }

  /** The token found is the table's only row with that value, and it has not expired. */
  lemma LiveTokenSpec(t: Tables, token: string, now: int)
    requires t.Valid()
    ensures LiveToken(t, token, now).None? <==>
      forall id :: id in t.resetTokens && t.resetTokens[id].token == token ==> t.resetTokens[id].expiresAt <= now
    ensures forall id :: id in t.resetTokens && t.resetTokens[id].token == token && t.resetTokens[id].expiresAt > now ==>
      LiveToken(t, token, now) == Some(t.resetTokens[id])
    ensures LiveToken(t, token, now).Some? ==>
      var r := LiveToken(t, token, now).value;
      r.token == token && r.expiresAt > now && r.id in t.resetTokens && t.resetTokens[r.id] == r
  {
  }

  // ---------------------------------------------------------------------------------------
  // Statements

  /** The declared length of the `varchar` columns the handlers write. */
  const VarcharLimit := 255

  /**
   * Assigning a string to a `varchar(255)` column: a value that fits is stored as it is; a
   * longer one is cut to 255 characters when everything past the limit is spaces, and is
   * refused otherwise.
   */
  function Varchar(s: string): (r: Option<string>)
    ensures |s| <= VarcharLimit ==> r == Some(s)
    ensures r.Some? ==>
      |r.value| <= VarcharLimit && r.value <= s && (forall i :: |r.value| <= i < |s| ==> s[i] == ' ') &&
      (|s| > VarcharLimit ==> |r.value| == VarcharLimit)
    ensures r.None? <==> exists i :: VarcharLimit <= i < |s| && s[i] != ' '
  {
    if |s| <= VarcharLimit then Some(s)
    else if forall i :: VarcharLimit <= i < |s| ==> s[i] == ' ' then Some(s[..VarcharLimit])
    else None
  }

  /** A nullable `varchar(255)` value is accepted when it is NULL or fits. */
  predicate FitsNullable(s: Option<string>)
  {
    s.None? || Varchar(s.value).Some?
  }

  function StoredNullable(s: Option<string>): Option<string>
    requires FitsNullable(s)
  {
    if s.None? then None else Varchar(s.value)
  }

  /** The row `insert into users (email, hashed_password)` creates: defaults for the rest. */
  function NewUser(id: Id, email: string, hashedPassword: Option<string>, now: int): User
  {
    User(id, email, hashedPassword, DefaultRole, DefaultPlan, None, now, now)
  }

  /**
   * `insert into users (email, hashed_password)` with a fresh id. `None` when a value does
   * not fit its `varchar(255)` column or the stored email is taken (the `unique` constraint).
   */
  predicate UserInsertable(t: Tables, email: string, hashedPassword: Option<string>)
  {
    Varchar(email).Some? && FitsNullable(hashedPassword) &&
    forall id :: id in t.users ==> t.users[id].email != Varchar(email).value
  }

  /** The row the insert stores, and `returning` gives back. */
  function InsertedUser(t: Tables, email: string, hashedPassword: Option<string>, now: int): User
    requires Varchar(email).Some? && FitsNullable(hashedPassword)
  {
    NewUser(t.nextId, Varchar(email).value, StoredNullable(hashedPassword), now)
  }

  function UserInserted(t: Tables, email: string, hashedPassword: Option<string>, now: int): Option<Tables>
  {
    if UserInsertable(t, email, hashedPassword) then
      Some(t.(users := t.users[t.nextId := InsertedUser(t, email, hashedPassword, now)], nextId := t.nextId + 1))
    else None
  }

  /**
   * The account insert meets the `(user_id, provider)` unique constraint, and no row has the
   * pair already (a constraint the schema does not declare).
   */
  predicate CanLink(t: Tables, userId: Id, key: AccountKey)
  {
    key !in t.accounts &&
    forall k :: k in t.accounts && t.accounts[k].userId == userId ==> k.provider != key.provider
  }

  /** `insert into accounts`; `None` when a constraint rejects it. */
  function AccountLinked(t: Tables, userId: Id, key: AccountKey): Option<Tables>
  {
    if CanLink(t, userId, key) then
      Some(t.(accounts := t.accounts[key := Account(userId, key.provider, key.providerAccountId)]))
    else None
  }

  /** `delete from password_reset_tokens where user_id = userId`. */
  function TokensNotOf(tokens: map<Id, ResetToken>, userId: Id): map<Id, ResetToken>
  {
    map id | id in tokens && tokens[id].userId != userId :: tokens[id]
  }

  /** `delete from password_reset_tokens where token = token`. */
  function TokensWithout(tokens: map<Id, ResetToken>, token: string): map<Id, ResetToken>
  {
    map id | id in tokens && tokens[id].token != token :: tokens[id]
  }

  /**
   * The forgot-password transaction: delete the user's tokens, insert the new one. `None`
   * when the token does not fit its `varchar(255)` column or breaks the unique constraint on
   * `token`; either rolls back the delete.
   */
  function TokenReplaced(t: Tables, userId: Id, token: string, expiresAt: int): Option<Tables>
  {
    var kept := TokensNotOf(t.resetTokens, userId);
    var stored := Varchar(token);
    if stored.None? || exists id :: id in kept && kept[id].token == stored.value then None
    else Some(t.(resetTokens := kept[t.nextId := ResetToken(t.nextId, userId, stored.value, expiresAt)], nextId := t.nextId + 1))
  }

  /**
   * The reset-password transaction: set the password hash and `updatedAt` of the user (no row
   * changes when there is no such user), then delete the token. `None` when the hash does
   * not fit its `varchar(255)` column, which rolls the transaction back.
   */
  function TokenConsumed(t: Tables, userId: Id, hashedPassword: string, now: int, token: string): Option<Tables>
  {
    if userId in t.users && Varchar(hashedPassword).None? then None
    else
      var users :=
        if userId in t.users then t.users[userId := t.users[userId].(hashedPassword := Varchar(hashedPassword), updatedAt := now)]
        else t.users;
      Some(t.(users := users, resetTokens := TokensWithout(t.resetTokens, token)))
  }

  /** A multi-row insert: rows keyed by id, applied in order. */
  function AddRows<R>(m: map<Id, R>, rows: seq<R>, key: R -> Id): map<Id, R>
  {
    if rows == [] then m
    else AddRows(m, rows[..|rows| - 1], key)[key(rows[|rows| - 1]) := rows[|rows| - 1]]
  }

  /** `insert into questions` succeeds: `language_id` NOT NULL, and fresh, distinct ids. */
  predicate QuestionsInsertable(questions: map<Id, QuestionRow>, rows: seq<QuestionRow>)
  {
    (forall i :: 0 <= i < |rows| ==> rows[i].languageId.Some? && rows[i].id !in questions) &&
    (forall i, j :: 0 <= i < j < |rows| ==> rows[i].id != rows[j].id)
  }

  /** `insert into answers` succeeds: fresh, distinct ids, each parent question present. */
  predicate AnswersInsertable(answers: map<Id, AnswerRow>, questions: map<Id, QuestionRow>, rows: seq<AnswerRow>)
  {
    (forall i :: 0 <= i < |rows| ==> rows[i].id !in answers && rows[i].questionId in questions) &&
    (forall i, j :: 0 <= i < j < |rows| ==> rows[i].id != rows[j].id)
  }

  /**
   * The bulk-save transaction: insert the question rows when there are any, then the answer
   * rows when there are any. `None` when either insert fails, which rolls back both.
   */
  function QuestionsInserted(t: Tables, questionRows: seq<QuestionRow>, answerRows: seq<AnswerRow>): Option<Tables>
  {
    if |questionRows| > 0 && !QuestionsInsertable(t.questions, questionRows) then None
    else
      var questions := if |questionRows| > 0 then AddRows(t.questions, questionRows, (r: QuestionRow) => r.id) else t.questions;
      if |answerRows| > 0 && !AnswersInsertable(t.answers, questions, answerRows) then None
      else
        var answers := if |answerRows| > 0 then AddRows(t.answers, answerRows, (r: AnswerRow) => r.id) else t.answers;
        Some(t.(questions := questions, answers := answers))
  }

  // ---------------------------------------------------------------------------------------
  // What the statements do

  /**
   * The user insert succeeds exactly when the email and the hash fit their columns and no
   * user has the stored email. The new user then has the next id, the stored email and hash
   * and the schema's defaults, is the one found by that email, and no other row changes.
   */
  lemma UserInsertedSpec(t: Tables, email: string, hashedPassword: Option<string>, now: int)
    requires t.Valid()
    ensures UserInserted(t, email, hashedPassword, now).Some? <==>
      Varchar(email).Some? && (hashedPassword.None? || Varchar(hashedPassword.value).Some?) &&
      forall id :: id in t.users ==> t.users[id].email != Varchar(email).value
    ensures UserInserted(t, email, hashedPassword, now).Some? ==>
      var t' := UserInserted(t, email, hashedPassword, now).value;
      var u := User(t.nextId, Varchar(email).value, if hashedPassword.None? then None else Varchar(hashedPassword.value),
                    AuthenticatedUser, FreePlan, None, now, now);
      t'.Valid() && t.nextId !in t.users && t'.users == t.users[t.nextId := u] &&
      t'.accounts == t.accounts && t'.resetTokens == t.resetTokens &&
      UserByEmail(t', u.email) == Some(u)
  {
    if UserInsertable(t, email, hashedPassword) {
      var t' := UserInserted(t, email, hashedPassword, now).value;
      var u := InsertedUser(t, email, hashedPassword, now);
      assert t'.users[t.nextId] == u;
      assert t'.Valid();
      UserByEmailSpec(t', u.email);
    }
  }

  /** A link that meets the constraints adds exactly the one account and keeps the tables valid. */
  lemma AccountLinkedSpec(t: Tables, userId: Id, key: AccountKey)
    requires t.Valid() && userId < t.nextId
    ensures AccountLinked(t, userId, key).Some? <==> CanLink(t, userId, key)
    ensures AccountLinked(t, userId, key).Some? ==>
      var t' := AccountLinked(t, userId, key).value;
      t'.Valid() && t'.users == t.users && t'.resetTokens == t.resetTokens &&
      t'.accounts.Keys == t.accounts.Keys + {key} && t'.accounts[key].userId == userId &&
      (forall k :: k in t.accounts ==> t'.accounts[k] == t.accounts[k])
  {
    if CanLink(t, userId, key) {
      AccountLinkedValid(t, userId, key);
    }
  }

  /** A link that passes the constraints keeps the tables valid. */
  lemma AccountLinkedValid(t: Tables, userId: Id, key: AccountKey)
    requires t.Valid() && userId < t.nextId && CanLink(t, userId, key)
    ensures AccountLinked(t, userId, key).value.Valid()
  {
    var t' := AccountLinked(t, userId, key).value;
    assert forall k :: k in t'.accounts ==> k == key || k in t.accounts;
  }

  /** The replace fails exactly when another user holds a token with the same value. */
  lemma TokenReplacedFails(t: Tables, userId: Id, token: string, expiresAt: int)
    ensures TokenReplaced(t, userId, token, expiresAt).None? <==>
      Varchar(token).None? ||
      exists id :: id in t.resetTokens && t.resetTokens[id].userId != userId && t.resetTokens[id].token == Varchar(token).value
  {
    var kept := TokensNotOf(t.resetTokens, userId);
    if Varchar(token).Some? &&
      exists id :: id in t.resetTokens && t.resetTokens[id].userId != userId && t.resetTokens[id].token == Varchar(token).value
    {
      var id :| id in t.resetTokens && t.resetTokens[id].userId != userId && t.resetTokens[id].token == Varchar(token).value;
      assert id in kept && kept[id].token == Varchar(token).value;
    }
  }

  /** After a successful replace the user owns only the new token; other users' tokens stay. */
  lemma TokenReplacedOwns(t: Tables, userId: Id, token: string, expiresAt: int)
    requires t.Valid() && TokenReplaced(t, userId, token, expiresAt).Some?
    ensures var t' := TokenReplaced(t, userId, token, expiresAt).value;
      t'.users == t.users && t'.accounts == t.accounts &&
      t.nextId in t'.resetTokens && t'.resetTokens[t.nextId] == ResetToken(t.nextId, userId, Varchar(token).value, expiresAt) &&
      (forall id :: id in t'.resetTokens && t'.resetTokens[id].userId == userId ==> id == t.nextId) &&
      (forall id :: id in t.resetTokens && t.resetTokens[id].userId != userId ==>
        id in t'.resetTokens && t'.resetTokens[id] == t.resetTokens[id]) &&
      (forall id :: id in t'.resetTokens && t'.resetTokens[id].userId != userId ==> id in t.resetTokens)
  {
  }

  /**
   * After a successful replace the user owns exactly one token, the new one; every other
   * user's tokens, and every other table, are as they were.
   */
  lemma TokenReplacedSpec(t: Tables, userId: Id, token: string, expiresAt: int)
    requires t.Valid() && userId < t.nextId
    ensures TokenReplaced(t, userId, token, expiresAt).None? <==>
      Varchar(token).None? ||
      exists id :: id in t.resetTokens && t.resetTokens[id].userId != userId && t.resetTokens[id].token == Varchar(token).value
    ensures TokenReplaced(t, userId, token, expiresAt).Some? ==>
      var t' := TokenReplaced(t, userId, token, expiresAt).value;
      t'.Valid() && t'.users == t.users && t'.accounts == t.accounts &&
      t.nextId in t'.resetTokens && t'.resetTokens[t.nextId] == ResetToken(t.nextId, userId, Varchar(token).value, expiresAt) &&
      (forall id :: id in t'.resetTokens && t'.resetTokens[id].userId == userId ==> id == t.nextId) &&
      (forall id :: id in t.resetTokens && t.resetTokens[id].userId != userId ==>
        id in t'.resetTokens && t'.resetTokens[id] == t.resetTokens[id]) &&
      (forall id :: id in t'.resetTokens && t'.resetTokens[id].userId != userId ==> id in t.resetTokens)
  {
    TokenReplacedFails(t, userId, token, expiresAt);
    TokenReplacedValid(t, userId, token, expiresAt);
    if TokenReplaced(t, userId, token, expiresAt).Some? {
      TokenReplacedOwns(t, userId, token, expiresAt);
    }
  }

  /** The replace keeps the tables valid. */
  lemma TokenReplacedValid(t: Tables, userId: Id, token: string, expiresAt: int)
    requires t.Valid() && userId < t.nextId
    ensures TokenReplaced(t, userId, token, expiresAt).Some? ==> TokenReplaced(t, userId, token, expiresAt).value.Valid()
  {
  }

  /** The bulk insert touches neither users, accounts nor tokens, so the tables stay valid. */
  lemma QuestionsInsertedValid(t: Tables, questionRows: seq<QuestionRow>, answerRows: seq<AnswerRow>)
    requires t.Valid()
    ensures QuestionsInserted(t, questionRows, answerRows).Some? ==>
      QuestionsInserted(t, questionRows, answerRows).value.Valid()
  {
  }

  /**
   * The reset transaction fails exactly when the user exists and the hash does not fit its
   * column. Otherwise the token is gone for good, and only the owner's stored hash and
   * `updatedAt` change.
   */
  lemma TokenConsumedSpec(t: Tables, userId: Id, hashedPassword: string, now: int, token: string)
    requires t.Valid()
    ensures TokenConsumed(t, userId, hashedPassword, now, token).None? <==>
      userId in t.users && Varchar(hashedPassword).None?
    ensures TokenConsumed(t, userId, hashedPassword, now, token).Some? ==>
      var t' := TokenConsumed(t, userId, hashedPassword, now, token).value;
      t'.Valid() && t'.accounts == t.accounts && t'.users.Keys == t.users.Keys &&
      (userId in t.users ==>
        t'.users[userId] == t.users[userId].(hashedPassword := Varchar(hashedPassword), updatedAt := now)) &&
      (forall id :: id in t.users && id != userId ==> t'.users[id] == t.users[id]) &&
      (forall id :: id in t'.resetTokens ==> t'.resetTokens[id].token != token) &&
      (forall id :: id in t.resetTokens && t.resetTokens[id].token != token ==>
        id in t'.resetTokens && t'.resetTokens[id] == t.resetTokens[id]) &&
      forall later :: LiveToken(t', token, later).None?
  {
    if TokenConsumed(t, userId, hashedPassword, now, token).Some? {
      var t' := TokenConsumed(t, userId, hashedPassword, now, token).value;
      assert t'.Valid();
      forall later ensures LiveToken(t', token, later).None? {
        LiveTokenSpec(t', token, later);
      }
    }
  }

  /** Every key a multi-row insert adds comes from a row, and every row's key is present. */
  lemma {:induction false} AddRowsKeys<R>(m: map<Id, R>, rows: seq<R>, key: R -> Id)
    ensures forall k :: k in AddRows(m, rows, key) <==> k in m || exists i :: 0 <= i < |rows| && key(rows[i]) == k
  {
    if rows != [] {
      var init := rows[..|rows| - 1];
      AddRowsKeys(m, init, key);
      forall k ensures k in AddRows(m, rows, key) <==> k in m || exists i :: 0 <= i < |rows| && key(rows[i]) == k {
        if k in AddRows(m, init, key) && k !in m {
          var i :| 0 <= i < |init| && key(init[i]) == k;
          assert key(rows[i]) == k;
        }
        if exists i :: 0 <= i < |rows| && key(rows[i]) == k {
          var i :| 0 <= i < |rows| && key(rows[i]) == k;
          if i < |init| { assert key(init[i]) == k; }
        }
      }
    }
  }

  /** A question row with a NULL `language_id` makes the whole bulk save roll back. */
  lemma NullLanguageRollsBack(t: Tables, questionRows: seq<QuestionRow>, answerRows: seq<AnswerRow>, i: nat)
    requires i < |questionRows| && questionRows[i].languageId.None?
    ensures QuestionsInserted(t, questionRows, answerRows).None?
  {
  }

  /** A successful bulk save adds both row lists and touches no other table. */
  lemma QuestionsInsertedSpec(t: Tables, questionRows: seq<QuestionRow>, answerRows: seq<AnswerRow>)
    requires t.Valid()
    ensures QuestionsInserted(t, questionRows, answerRows).Some? ==>
      var t' := QuestionsInserted(t, questionRows, answerRows).value;
      t'.Valid() && t'.users == t.users && t'.accounts == t.accounts && t'.resetTokens == t.resetTokens &&
      t'.nextId == t.nextId &&
      (forall k :: k in t'.questions <==> k in t.questions || exists i :: 0 <= i < |questionRows| && questionRows[i].id == k) &&
      (forall k :: k in t'.answers <==> k in t.answers || exists i :: 0 <= i < |answerRows| && answerRows[i].id == k)
  {
    AddRowsKeys(t.questions, questionRows, (r: QuestionRow) => r.id);
    AddRowsKeys(t.answers, answerRows, (r: AnswerRow) => r.id);
  }

  // ---------------------------------------------------------------------------------------
  // The database the handlers share

  class Database {
    var users: map<Id, User>
    var accounts: map<AccountKey, Account>
    var resetTokens: map<Id, ResetToken>
    var questions: map<Id, QuestionRow>
    var answers: map<Id, AnswerRow>
    var nextId: Id

    function State(): Tables
      reads this
    {
      Tables(users, accounts, resetTokens, questions, answers, nextId)
    }

    predicate Valid()
      reads this
    {
      State().Valid()
    }

    constructor ()
      ensures Valid()
      ensures State() == Tables(map[], map[], map[], map[], map[], 0)
    {
      users, accounts, resetTokens, questions, answers, nextId := map[], map[], map[], map[], map[], 0;
    }

    /** A fresh UUID. */
    method FreshId() returns (id: Id)
      requires Valid()
      modifies this`nextId
      ensures Valid()
      ensures id == old(nextId) && nextId == old(nextId) + 1
    {
      id := nextId;
      nextId := nextId + 1;
    }

    method FindUserByEmail(email: string) returns (r: Option<User>)
      requires Valid()
      ensures r == UserByEmail(State(), email)
    {
      if exists id :: id in users && users[id].email == email {
        var id :| id in users && users[id].email == email;
        r := Some(users[id]);
        UserByEmailSpec(State(), email);
      } else {
        r := None;
      }
    }

    method FindLiveToken(token: string, now: int) returns (r: Option<ResetToken>)
      requires Valid()
      ensures r == LiveToken(State(), token, now)
    {
      if exists id :: id in resetTokens && resetTokens[id].token == token && resetTokens[id].expiresAt > now {
        var id :| id in resetTokens && resetTokens[id].token == token && resetTokens[id].expiresAt > now;
        r := Some(resetTokens[id]);
        LiveTokenSpec(State(), token, now);
      } else {
        r := None;
      }
    }

    /** The insert with `returning`: the stored row, or `None` when the insert throws. */
    method InsertUser(email: string, hashedPassword: Option<string>, now: int) returns (u: Option<User>)
      requires Valid()
      modifies this
      ensures Valid()
      ensures u.Some? == UserInserted(old(State()), email, hashedPassword, now).Some?
      ensures u.Some? ==> u.value == InsertedUser(old(State()), email, hashedPassword, now)
      ensures State() == if u.Some? then UserInserted(old(State()), email, hashedPassword, now).value else old(State())
    {
      UserInsertedSpec(State(), email, hashedPassword, now);
      var storedEmail := Varchar(email);
      if storedEmail.None? || (hashedPassword.Some? && Varchar(hashedPassword.value).None?) {
        return None;
      }
      if exists id :: id in users && users[id].email == storedEmail.value {
        return None;
      }
      var row := NewUser(nextId, storedEmail.value, if hashedPassword.None? then None else Varchar(hashedPassword.value), now);
      users := users[nextId := row];
      nextId := nextId + 1;
      u := Some(row);
    }

    method LinkAccount(userId: Id, key: AccountKey) returns (ok: bool)
      requires Valid() && userId < nextId
      modifies this
      ensures Valid()
      ensures ok == AccountLinked(old(State()), userId, key).Some?
      ensures State() == if ok then AccountLinked(old(State()), userId, key).value else old(State())
    {
      AccountLinkedSpec(State(), userId, key);
      ok := CanLink(State(), userId, key);
      if ok {
        accounts := accounts[key := Account(userId, key.provider, key.providerAccountId)];
      }
    }

    method ReplaceResetToken(userId: Id, token: string, expiresAt: int) returns (ok: bool)
      requires Valid() && userId < nextId
      modifies this
      ensures Valid()
      ensures ok == TokenReplaced(old(State()), userId, token, expiresAt).Some?
      ensures State() == if ok then TokenReplaced(old(State()), userId, token, expiresAt).value else old(State())
    {
      ghost var t := State();
      TokenReplacedValid(t, userId, token, expiresAt);
      // The delete is staged; it is written only when the insert that follows succeeds.
      var kept := TokensNotOf(resetTokens, userId);
      var stored := Varchar(token);
      ok := stored.Some? && !exists id :: id in kept && kept[id].token == stored.value;
      if ok {
        resetTokens := kept[nextId := ResetToken(nextId, userId, stored.value, expiresAt)];
        nextId := nextId + 1;
        assert State() == TokenReplaced(t, userId, token, expiresAt).value;
      }
    }

    method ConsumeResetToken(userId: Id, hashedPassword: string, now: int, token: string) returns (ok: bool)
      requires Valid()
      modifies this
      ensures Valid()
      ensures ok == TokenConsumed(old(State()), userId, hashedPassword, now, token).Some?
      ensures State() == if ok then TokenConsumed(old(State()), userId, hashedPassword, now, token).value else old(State())
    {
      TokenConsumedSpec(State(), userId, hashedPassword, now, token);
      var stored := Varchar(hashedPassword);
      if userId in users {
        if stored.None? {
          return false;
        }
        users := users[userId := users[userId].(hashedPassword := stored, updatedAt := now)];
      }
      resetTokens := TokensWithout(resetTokens, token);
      ok := true;
    }

    method InsertQuestions(questionRows: seq<QuestionRow>, answerRows: seq<AnswerRow>) returns (ok: bool)
      requires Valid()
      modifies this
      ensures Valid()
      ensures ok == QuestionsInserted(old(State()), questionRows, answerRows).Some?
      ensures State() == if ok then QuestionsInserted(old(State()), questionRows, answerRows).value else old(State())
    {
      ghost var t := State();
      QuestionsInsertedValid(t, questionRows, answerRows);
      // Both inserts are staged; they are written together when neither fails.
      var staged := questions;
      if |questionRows| > 0 {
        if !QuestionsInsertable(staged, questionRows) {
          return false;
        }
        staged := AddRows(staged, questionRows, (r: QuestionRow) => r.id);
      }
      var stagedAnswers := answers;
      if |answerRows| > 0 {
        if !AnswersInsertable(stagedAnswers, staged, answerRows) {
          return false;
        }
        stagedAnswers := AddRows(stagedAnswers, answerRows, (r: AnswerRow) => r.id);
      }
      questions, answers := staged, stagedAnswers;
      ok := true;
      assert State() == QuestionsInserted(t, questionRows, answerRows).value;
    }
  }
}
