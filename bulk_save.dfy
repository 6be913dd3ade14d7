/**
 * `POST /api/questions/bulk-upload/save`: validate the request against
 * `{ questions: questionSchema[] }`, flatten the questions into question rows and answer
 * rows, each answer row carrying its question's fresh id, and insert both lists in one
 * transaction.
 *
 * Each question row is built with the keys `language` and `category`, read from fields the
 * validated question does not have. Neither key names a column, so `language_id` (NOT NULL)
 * and `category_id` are left NULL, and the question insert always fails: a valid, non-empty
 * request always ends in the 500 response.
 */
module BulkSave {
  import opened Wrappers
  import opened Json
  import opened Strings
  import opened Db
  import opened QuestionSchema

  datatype SaveResponse = SaveResponse(status: nat, message: string, errors: seq<Issue>)

  const InvalidBody := "Invalid request body"
  const NoQuestions := "No valid questions to upload"
  const SaveFailed := "Internal Server Error during database save"

  function Uploaded(n: nat): string
  {
    "Successfully uploaded " + NatToString(n) + " questions"
  }

  const Failure := SaveResponse(500, SaveFailed, [])

  datatype SaveOutcome = SaveOutcome(response: SaveResponse, tables: Tables)

  /** Ids the flattening draws: one per question and one per answer. */
  function IdsUsed(qs: seq<Question>): nat
  {
    if qs == [] then 0 else IdsUsed(qs[..|qs| - 1]) + 1 + |qs[|qs| - 1].answers|
  }

  /** The number of answers over all questions. */
  function AnswerCount(qs: seq<Question>): nat
  {
    if qs == [] then 0 else AnswerCount(qs[..|qs| - 1]) + |qs[|qs| - 1].answers|
  }

  /** The question row built for `q`: `language_id` and `category_id` stay NULL. */
  function QuestionRowOf(q: Question, id: Id): QuestionRow
  {
    QuestionRow(id, q.question, q.explanation, None, q.difficultyLevelId, None)
  }

  /** The answer rows built for the answers of the question whose row has id `questionId`. */
  function AnswerRowsOf(answers: seq<Answer>, questionId: Id): seq<AnswerRow>
  {
    if answers == [] then []
    else
      var last := answers[|answers| - 1];
      AnswerRowsOf(answers[..|answers| - 1], questionId) + [AnswerRow(questionId + |answers|, questionId, last.answerText, last.isCorrect)]
  }

  /** The question rows for `qs` with ids drawn from `base` on. */
  function QuestionRows(qs: seq<Question>, base: Id): seq<QuestionRow>
  {
    if qs == [] then []
    else
      var init := qs[..|qs| - 1];
      QuestionRows(init, base) + [QuestionRowOf(qs[|qs| - 1], base + IdsUsed(init))]
  }

  function AnswerRows(qs: seq<Question>, base: Id): seq<AnswerRow>
  {
    if qs == [] then []
    else
      var init := qs[..|qs| - 1];
      AnswerRows(init, base) + AnswerRowsOf(qs[|qs| - 1].answers, base + IdsUsed(init))
  }

  /** The id the flattening gives question `k`. */
  function QuestionId(qs: seq<Question>, base: Id, k: nat): Id
    requires k <= |qs|
  {
    base + IdsUsed(qs[..k])
  }

  /** The inner loop: one answer row per answer, each with a fresh id, pushed onto `rows`. */
  method PushAnswerRows(db: Database, answers: seq<Answer>, questionId: Id, rows: seq<AnswerRow>)
    returns (pushed: seq<AnswerRow>)
    requires db.Valid() && db.nextId == questionId + 1
    modifies db`nextId
    ensures db.Valid() && db.nextId == questionId + 1 + |answers|
    ensures pushed == rows + AnswerRowsOf(answers, questionId)
  {
    pushed := rows;
    var m := 0;
    while m < |answers|
      invariant 0 <= m <= |answers|
      invariant db.Valid()
      invariant db.nextId == questionId + 1 + m
      invariant pushed == rows + AnswerRowsOf(answers[..m], questionId)
    {
      var a := answers[m];
      var id := db.FreshId();
      pushed := pushed + [AnswerRow(id, questionId, a.answerText, a.isCorrect)];
      assert answers[..m + 1][..m] == answers[..m];
      m := m + 1;
    }
    assert answers[..m] == answers;
  }

  /** One turn of the outer loop extends the rows of the first `k` questions to those of `k + 1`. */
  lemma RowsPushed(qs: seq<Question>, base: Id, k: nat, questionId: Id,
                   qr: seq<QuestionRow>, ar: seq<AnswerRow>, qr': seq<QuestionRow>, ar': seq<AnswerRow>)
    requires k < |qs| && questionId == base + IdsUsed(qs[..k])
    requires qr == QuestionRows(qs[..k], base) && ar == AnswerRows(qs[..k], base)
    requires qr' == qr + [QuestionRowOf(qs[k], questionId)] && ar' == ar + AnswerRowsOf(qs[k].answers, questionId)
    ensures questionId + 1 + |qs[k].answers| == base + IdsUsed(qs[..k + 1])
    ensures qr' == QuestionRows(qs[..k + 1], base) && ar' == AnswerRows(qs[..k + 1], base)
  {
    RowsStep(qs, base, k);
  }

  /** One turn of the outer loop: the question's row with a fresh id, then its answer rows. */
  method PushQuestion(db: Database, q: Question, questionRows: seq<QuestionRow>, answerRows: seq<AnswerRow>)
    returns (questionRows': seq<QuestionRow>, answerRows': seq<AnswerRow>)
    requires db.Valid()
    modifies db`nextId
    ensures db.Valid() && db.nextId == old(db.nextId) + 1 + |q.answers|
    ensures questionRows' == questionRows + [QuestionRowOf(q, old(db.nextId))]
    ensures answerRows' == answerRows + AnswerRowsOf(q.answers, old(db.nextId))
  {
    var questionId := db.FreshId();
    questionRows' := questionRows + [QuestionRow(questionId, q.question, q.explanation, None, q.difficultyLevelId, None)];
    answerRows' := PushAnswerRows(db, q.answers, questionId, answerRows);
  }

  /** The outer loop: one question row per question, then that question's answer rows. */
  method BuildInserts(db: Database, qs: seq<Question>) returns (questionRows: seq<QuestionRow>, answerRows: seq<AnswerRow>)
    requires db.Valid()
    modifies db`nextId
    ensures db.Valid() && db.nextId == old(db.nextId) + IdsUsed(qs)
    ensures questionRows == QuestionRows(qs, old(db.nextId))
    ensures answerRows == AnswerRows(qs, old(db.nextId))
  {
    ghost var base := db.nextId;
    questionRows, answerRows := [], [];
    var k := 0;
    while k < |qs|
      invariant 0 <= k <= |qs|
      invariant db.Valid()
      invariant db.nextId == base + IdsUsed(qs[..k])
      invariant questionRows == QuestionRows(qs[..k], base)
      invariant answerRows == AnswerRows(qs[..k], base)
    {
      ghost var questionId, qr, ar := db.nextId, questionRows, answerRows;
      questionRows, answerRows := PushQuestion(db, qs[k], questionRows, answerRows);
      RowsPushed(qs, base, k, questionId, qr, ar, questionRows, answerRows);
      k := k + 1;
    }
    assert qs[..|qs|] == qs;
  }

  /** The response and the tables after one request; `None` is a body that is not JSON. */
  function Save(t: Tables, body: Option<Value>): (o: SaveOutcome)
  {
    if body.None? then SaveOutcome(Failure, t)
    else
      match SafeParseSave(body.value)
      case Err(issues) => SaveOutcome(SaveResponse(400, InvalidBody, issues), t)
      case Ok(qs) =>
        if |qs| == 0 then SaveOutcome(SaveResponse(400, NoQuestions, []), t)
        else
          var t1 := t.(nextId := t.nextId + IdsUsed(qs));
          var success := SaveResponse(200, Uploaded(|qs|), []);
          var committed := QuestionsInserted(t1, QuestionRows(qs, t.nextId), AnswerRows(qs, t.nextId));
          if committed.Some? then SaveOutcome(success, committed.value) else SaveOutcome(Failure, t1)
  }

  method Post(db: Database, body: Option<Value>) returns (resp: SaveResponse)
    requires db.Valid()
    modifies db
    ensures db.Valid()
    ensures resp == Save(old(db.State()), body).response
    ensures db.State() == Save(old(db.State()), body).tables
  {
    ghost var t := db.State();
    if body.None? {
      return Failure;
    }
    var validation := SafeParseSave(body.value);
    if validation.Err? {
      return SaveResponse(400, InvalidBody, validation.error);
    }
    var validatedQuestions := validation.value;
    if |validatedQuestions| == 0 {
      return SaveResponse(400, NoQuestions, []);
    }
    var questionRows, answerRows := BuildInserts(db, validatedQuestions);
    ghost var t1 := db.State();
    assert t1 == t.(nextId := t.nextId + IdsUsed(validatedQuestions));
    var success := SaveResponse(200, Uploaded(|validatedQuestions|), []);
    var committed := db.InsertQuestions(questionRows, answerRows);
    resp := if committed then success else Failure;
  }

  // ---------------------------------------------------------------------------------------
  // The guards

  /** A body the schema refuses gets 400 with zod's issues, and nothing is written. */
  lemma InvalidBodyRejected(t: Tables, v: Value)
    requires !SaveAccepts(v)
    ensures SafeParseSave(v).Err?
    ensures Save(t, Some(v)) == SaveOutcome(SaveResponse(400, InvalidBody, SafeParseSave(v).error), t)
  {
    SafeParseSaveIffAccepts(v);
  }

  /** An empty question list gets 400 and nothing is written. */
  lemma EmptyListRejected(t: Tables, v: Value)
    requires v.Obj? && Get(v.fields, "questions") == Arr([])
    ensures Save(t, Some(v)) == SaveOutcome(SaveResponse(400, NoQuestions, []), t)
  {
    assert Combine(QuestionParts([], [Key("questions")])) == Parse(Some([]), []);
  }

  // ---------------------------------------------------------------------------------------
  // The flattening

  lemma {:induction false} IdsUsedCounts(qs: seq<Question>)
    ensures IdsUsed(qs) == |qs| + AnswerCount(qs)
  {
    if qs != [] {
      IdsUsedCounts(qs[..|qs| - 1]);
    }
  }

  /** Ids drawn for the first `k + 1` questions: those for the first `k`, then question `k`'s. */
  lemma IdsUsedStep(qs: seq<Question>, k: nat)
    requires k < |qs|
    ensures IdsUsed(qs[..k + 1]) == IdsUsed(qs[..k]) + 1 + |qs[k].answers|
    ensures AnswerCount(qs[..k + 1]) == AnswerCount(qs[..k]) + |qs[k].answers|
  {
    assert qs[..k + 1][..k] == qs[..k];
  }

  /** The rows for the first `k + 1` questions: those for the first `k`, then question `k`'s. */
  lemma RowsStep(qs: seq<Question>, base: Id, k: nat)
    requires k < |qs|
    ensures IdsUsed(qs[..k + 1]) == IdsUsed(qs[..k]) + 1 + |qs[k].answers|
    ensures QuestionRows(qs[..k + 1], base) == QuestionRows(qs[..k], base) + [QuestionRowOf(qs[k], base + IdsUsed(qs[..k]))]
    ensures AnswerRows(qs[..k + 1], base) == AnswerRows(qs[..k], base) + AnswerRowsOf(qs[k].answers, base + IdsUsed(qs[..k]))
  {
    assert qs[..k + 1][..k] == qs[..k];
  }

  /** One question row per question, in input order, each with its question's fields. */
  lemma {:induction false} QuestionRowsSpec(qs: seq<Question>, base: Id)
    ensures |QuestionRows(qs, base)| == |qs|
    ensures forall k :: 0 <= k < |qs| ==>
      QuestionRows(qs, base)[k] ==
        QuestionRow(base + IdsUsed(qs[..k]), qs[k].question, qs[k].explanation, None, qs[k].difficultyLevelId, None)
  {
    if qs != [] {
      var init := qs[..|qs| - 1];
      QuestionRowsSpec(init, base);
      forall k | 0 <= k < |qs|
        ensures QuestionRows(qs, base)[k] ==
          QuestionRow(base + IdsUsed(qs[..k]), qs[k].question, qs[k].explanation, None, qs[k].difficultyLevelId, None)
      {
        if k < |init| {
          assert init[..k] == qs[..k];
        } else {
          assert qs[..k] == init;
        }
      }
    }
  }

  /** The `m`-th answer row of a question has id `questionId + 1 + m` and the answer's fields. */
  lemma {:induction false} AnswerRowsOfSpec(answers: seq<Answer>, questionId: Id)
    ensures |AnswerRowsOf(answers, questionId)| == |answers|
    ensures forall m :: 0 <= m < |answers| ==>
      AnswerRowsOf(answers, questionId)[m] ==
        AnswerRow(questionId + 1 + m, questionId, answers[m].answerText, answers[m].isCorrect)
  {
    if answers != [] {
      var init := answers[..|answers| - 1];
      AnswerRowsOfSpec(init, questionId);
      forall m | 0 <= m < |answers|
        ensures AnswerRowsOf(answers, questionId)[m] ==
          AnswerRow(questionId + 1 + m, questionId, answers[m].answerText, answers[m].isCorrect)
      {
        if m < |init| {
          assert init[m] == answers[m];
        }
      }
    }
  }

  lemma {:induction false} AnswerRowsLength(qs: seq<Question>, base: Id)
    ensures |AnswerRows(qs, base)| == AnswerCount(qs)
  {
    if qs != [] {
      AnswerRowsLength(qs[..|qs| - 1], base);
      AnswerRowsOfSpec(qs[|qs| - 1].answers, base + IdsUsed(qs[..|qs| - 1]));
    }
  }

  /** The rows of the first `k` questions start the rows of all of them. */
  lemma {:induction false} AnswerRowsPrefix(qs: seq<Question>, base: Id, k: nat)
    requires k <= |qs|
    ensures AnswerRows(qs[..k], base) <= AnswerRows(qs, base)
    decreases |qs| - k
  {
    if k < |qs| {
      AnswerRowsPrefix(qs, base, k + 1);
      assert qs[..k + 1][..k] == qs[..k];
    } else {
      assert qs[..k] == qs;
    }
  }

  /** A row placed after `pre` in a prefix of `all` is found at that offset in `all`. */
  lemma PlacedRow(all: seq<AnswerRow>, pre: seq<AnswerRow>, mine: seq<AnswerRow>, m: nat)
    requires pre + mine <= all && m < |mine|
    ensures |pre| + |mine| <= |all| && all[|pre| + m] == mine[m]
  {
    assert (pre + mine)[|pre| + m] == mine[m];
  }

  /** The `m`-th answer of question `k` sits after the answers of the questions before it. */
  lemma AnswerRowAt(qs: seq<Question>, base: Id, k: nat, m: nat)
    requires k < |qs| && m < |qs[k].answers|
    ensures AnswerCount(qs[..k]) + |qs[k].answers| <= |AnswerRows(qs, base)|
    ensures AnswerRows(qs, base)[AnswerCount(qs[..k]) + m] ==
      AnswerRow(base + IdsUsed(qs[..k]) + 1 + m, base + IdsUsed(qs[..k]), qs[k].answers[m].answerText, qs[k].answers[m].isCorrect)
  {
    var qid := base + IdsUsed(qs[..k]);
    var pre := AnswerRows(qs[..k], base);
    var mine := AnswerRowsOf(qs[k].answers, qid);
    RowsStep(qs, base, k);
    AnswerRowsLength(qs[..k], base);
    AnswerRowsOfSpec(qs[k].answers, qid);
    AnswerRowsPrefix(qs, base, k + 1);
    PlacedRow(AnswerRows(qs, base), pre, mine, m);
  }

  /**
   * The answer rows are the questions' answers, grouped per question in input order: the
   * `m`-th answer of question `k` sits after the answers of the questions before it, with
   * its text and flag, and its `questionId` is question `k`'s id.
   */
  lemma {:induction false} AnswerRowsSpec(qs: seq<Question>, base: Id)
    ensures |AnswerRows(qs, base)| == AnswerCount(qs)
    ensures forall k :: 0 <= k < |qs| ==> AnswerCount(qs[..k]) + |qs[k].answers| <= |AnswerRows(qs, base)|
    ensures forall k, m :: 0 <= k < |qs| && 0 <= m < |qs[k].answers| ==>
      AnswerRows(qs, base)[AnswerCount(qs[..k]) + m] ==
        AnswerRow(base + IdsUsed(qs[..k]) + 1 + m, base + IdsUsed(qs[..k]), qs[k].answers[m].answerText, qs[k].answers[m].isCorrect)
  {
    AnswerRowsLength(qs, base);
    forall k | 0 <= k < |qs|
      ensures AnswerCount(qs[..k]) + |qs[k].answers| <= |AnswerRows(qs, base)|
    {
      AnswerCountPrefix(qs, k + 1);
      IdsUsedStep(qs, k);
    }
    forall k, m | 0 <= k < |qs| && 0 <= m < |qs[k].answers|
      ensures AnswerRows(qs, base)[AnswerCount(qs[..k]) + m] ==
        AnswerRow(base + IdsUsed(qs[..k]) + 1 + m, base + IdsUsed(qs[..k]), qs[k].answers[m].answerText, qs[k].answers[m].isCorrect)
    {
      AnswerRowAt(qs, base, k, m);
    }
  }

  /** The answers of a prefix never outnumber those of the whole list. */
  lemma {:induction false} AnswerCountPrefix(qs: seq<Question>, k: nat)
    requires k <= |qs|
    ensures AnswerCount(qs[..k]) <= AnswerCount(qs)
    decreases |qs| - k
  {
    if k < |qs| {
      IdsUsedStep(qs, k);
      AnswerCountPrefix(qs, k + 1);
    } else {
      assert qs[..k] == qs;
    }
  }

  /** Every id the flattening draws lies in `[base, base + IdsUsed(qs))`. */
  lemma {:induction false} IdsInRange(qs: seq<Question>, base: Id)
    ensures forall i :: 0 <= i < |QuestionRows(qs, base)| ==>
      base <= QuestionRows(qs, base)[i].id < base + IdsUsed(qs)
    ensures forall i :: 0 <= i < |AnswerRows(qs, base)| ==>
      base <= AnswerRows(qs, base)[i].id < base + IdsUsed(qs)
  {
    if qs != [] {
      IdsInRange(qs[..|qs| - 1], base);
      AnswerRowsOfSpec(qs[|qs| - 1].answers, base + IdsUsed(qs[..|qs| - 1]));
    }
  }

  /**
   * All generated ids are distinct: question ids increase with the question, answer ids
   * increase along the answer rows, and no answer id is a question id.
   */
  lemma {:induction false} IdsDistinct(qs: seq<Question>, base: Id)
    ensures forall i, j :: 0 <= i < j < |QuestionRows(qs, base)| ==>
      QuestionRows(qs, base)[i].id < QuestionRows(qs, base)[j].id
    ensures forall i, j :: 0 <= i < j < |AnswerRows(qs, base)| ==>
      AnswerRows(qs, base)[i].id < AnswerRows(qs, base)[j].id
    ensures forall i, j :: 0 <= i < |QuestionRows(qs, base)| && 0 <= j < |AnswerRows(qs, base)| ==>
      QuestionRows(qs, base)[i].id != AnswerRows(qs, base)[j].id
  {
    if qs != [] {
      var init := qs[..|qs| - 1];
      var last := qs[|qs| - 1];
      var start := base + IdsUsed(init);
      IdsDistinct(init, base);
      IdsInRange(init, base);
      var qInit, aInit := QuestionRows(init, base), AnswerRows(init, base);
      var group := AnswerRowsOf(last.answers, start);
      AnswerRowsOfSpec(last.answers, start);
      assert QuestionRows(qs, base) == qInit + [QuestionRowOf(last, start)];
      assert AnswerRows(qs, base) == aInit + group;
    }
  }

  // ---------------------------------------------------------------------------------------
  // The transaction

  /** Every valid, non-empty request ends in 500, and the transaction leaves no row behind. */
  lemma NonEmptySaveFails(t: Tables, v: Value)
    requires SafeParseSave(v).Ok? && |SafeParseSave(v).value| > 0
    ensures var o := Save(t, Some(v));
      o.response == Failure &&
      o.tables.users == t.users && o.tables.accounts == t.accounts && o.tables.resetTokens == t.resetTokens &&
      o.tables.questions == t.questions && o.tables.answers == t.answers
  {
    var qs := SafeParseSave(v).value;
    QuestionRowsSpec(qs, t.nextId);
    NullLanguageRollsBack(t.(nextId := t.nextId + IdsUsed(qs)), QuestionRows(qs, t.nextId), AnswerRows(qs, t.nextId), 0);
  }

  /** No request is ever answered with the success message. */
  lemma SaveNeverSucceeds(t: Tables, body: Option<Value>)
    ensures Save(t, body).response.status != 200
    ensures Save(t, body).tables.questions == t.questions && Save(t, body).tables.answers == t.answers
  {
    if body.Some? && SafeParseSave(body.value).Ok? && |SafeParseSave(body.value).value| > 0 {
      NonEmptySaveFails(t, body.value);
    }
  }
}
