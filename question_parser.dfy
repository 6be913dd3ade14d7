/**
 * The bulk-upload file parser: a spreadsheet (CSV or Excel) is read as rows of cells, each
 * data row is mapped to a raw question object by a fixed column layout, and the raw object
 * is checked against the question schema. Rows that pass become questions; rows that fail
 * are reported with their 1-based row number and the joined schema messages.
 *
 * Column layout: 0 question, 1 explanation, 2 difficulty level id, 3 category, then four
 * answer pairs (text, correct flag) in columns 4-5, 6-7, 8-9 and 10-11.
 */
module QuestionParser {
  import opened Wrappers
  import opened Strings
  import opened Json
  import opened QuestionSchema

  /** A cell as the sheet reader hands it over; `Blank` is a missing cell. */
  datatype Cell = Blank | Text(s: string) | Number(n: int) | Flag(b: bool)
  type Row = seq<Cell>

  /** `raw[i]`: reading past the end of a row yields `undefined`. */
  function CellAt(row: Row, i: nat): Cell
  {
    if i < |row| then row[i] else Blank
  }

  /** JavaScript truthiness of a cell value. */
  predicate Truthy(c: Cell)
  {
    match c
    case Blank => false
    case Text(s) => s != ""
    case Number(n) => n != 0
    case Flag(b) => b
  }

  /** `String(c)`. */
  function CellText(c: Cell): string
  {
    match c
    case Blank => "undefined"
    case Text(s) => s
    case Number(n) => IntToString(n)
    case Flag(b) => if b then "true" else "false"
  }

  /** `isCorrect === 1 || isCorrect === '1' || isCorrect === true`. */
  predicate MarksCorrect(c: Cell)
  {
    c == Number(1) || c == Text("1") || c == Flag(true)
  }

  datatype RawAnswer = RawAnswer(answerText: string, isCorrect: bool)

  /** The object `mapRawToSchema` builds; absent optional fields are `None`. */
  datatype RawQuestion = RawQuestion(
    question: string,
    explanation: Option<string>,
    difficultyLevelId: Option<string>,
    category: Option<string>,
    language: string,
    answers: seq<RawAnswer>)

  const AnswerPairs := 4
  const Language := "ja"

  function TextColumn(j: nat): nat { 4 + j * 2 }

  function FlagColumn(j: nat): nat { 5 + j * 2 }

  /** The answer column pair `j` denotes, if its text cell is truthy. */
  function PairAnswer(row: Row, j: nat): RawAnswer
  {
    RawAnswer(Trim(CellText(CellAt(row, TextColumn(j)))), MarksCorrect(CellAt(row, FlagColumn(j))))
  }

  predicate PairPresent(row: Row, j: nat)
  {
    Truthy(CellAt(row, TextColumn(j)))
  }

  /** The answers of the first `n` column pairs, skipping pairs whose text cell is falsy. */
  function PairAnswers(row: Row, n: nat): seq<RawAnswer>
  {
    if n == 0 then []
    else PairAnswers(row, n - 1) + (if PairPresent(row, n - 1) then [PairAnswer(row, n - 1)] else [])
  }

  /** A truthy cell, trimmed, or absent. */
  function OptionalCell(c: Cell): Option<string>
  {
    if Truthy(c) then Some(Trim(CellText(c))) else None
  }

  /** What `mapRawToSchema` returns: nothing for a row whose first cell is falsy. */
  function MapRow(row: Row): Option<RawQuestion>
  {
    if !Truthy(CellAt(row, 0)) then None
    else Some(RawQuestion(Trim(CellText(CellAt(row, 0))), OptionalCell(CellAt(row, 1)),
                          OptionalCell(CellAt(row, 2)), OptionalCell(CellAt(row, 3)),
                          Language, PairAnswers(row, AnswerPairs)))
  }

  /** `mapRawToSchema`: the answer pairs are collected by a loop over the four column pairs. */
  method MapRawToSchema(row: Row) returns (r: Option<RawQuestion>)
    ensures r == MapRow(row)
  {
    if !Truthy(CellAt(row, 0)) {
      return None;
    }
    var answers: seq<RawAnswer> := [];
    var i := 0;
    while i < AnswerPairs
      invariant 0 <= i <= AnswerPairs
      invariant answers == PairAnswers(row, i)
    {
      var text := CellAt(row, 4 + i * 2);
      var isCorrect := CellAt(row, 5 + i * 2);
      if Truthy(text) {
        answers := answers + [RawAnswer(Trim(CellText(text)), MarksCorrect(isCorrect))];
      }
      i := i + 1;
    }
    r := Some(RawQuestion(Trim(CellText(CellAt(row, 0))), OptionalCell(CellAt(row, 1)),
                          OptionalCell(CellAt(row, 2)), OptionalCell(CellAt(row, 3)),
                          Language, answers));
  }

  /** The indices of the present pairs among the first `n`, in column order. */
  function PresentPairs(row: Row, n: nat): seq<nat>
  {
    if n == 0 then [] else PresentPairs(row, n - 1) + (if PairPresent(row, n - 1) then [n - 1] else [])
  }

  /**
   * The answers are exactly the present pairs, in column order: answer `k` comes from the
   * `k`-th present pair, taking its trimmed text and its correct flag, and no present pair
   * is skipped.
   */
  lemma {:induction false} PairAnswersSpec(row: Row, n: nat)
    ensures |PairAnswers(row, n)| == |PresentPairs(row, n)|
    ensures forall k :: 0 <= k < |PresentPairs(row, n)| ==>
      PresentPairs(row, n)[k] < n && PairPresent(row, PresentPairs(row, n)[k]) &&
      PairAnswers(row, n)[k] == PairAnswer(row, PresentPairs(row, n)[k])
    ensures forall k, l :: 0 <= k < l < |PresentPairs(row, n)| ==> PresentPairs(row, n)[k] < PresentPairs(row, n)[l]
    ensures forall j :: 0 <= j < n && PairPresent(row, j) ==> j in PresentPairs(row, n)
  {
    if n > 0 {
      PairAnswersSpec(row, n - 1);
      var ps0, ans0 := PresentPairs(row, n - 1), PairAnswers(row, n - 1);
      var ps, ans := PresentPairs(row, n), PairAnswers(row, n);
      if PairPresent(row, n - 1) {
        assert ps == ps0 + [n - 1] && ans == ans0 + [PairAnswer(row, n - 1)];
        forall k | 0 <= k < |ps|
          ensures ps[k] < n && PairPresent(row, ps[k]) && ans[k] == PairAnswer(row, ps[k])
        {
          if k < |ps0| {
            assert ps[k] == ps0[k] && ans[k] == ans0[k];
          }
        }
        forall j | 0 <= j < n && PairPresent(row, j)
          ensures j in ps
        {
          if j < n - 1 {
            assert j in ps0;
          } else {
            assert ps[|ps0|] == j;
          }
        }
      } else {
        assert ps == ps0 && ans == ans0;
      }
    }
  }

  /** A row yields at most four answers, and the first cell alone decides whether it is skipped. */
  lemma MapRowShape(row: Row)
    ensures MapRow(row).None? <==> !Truthy(CellAt(row, 0))
    ensures MapRow(row).Some? ==>
      var raw := MapRow(row).value;
      raw.language == Language && raw.question == Trim(CellText(CellAt(row, 0))) &&
      |raw.answers| <= AnswerPairs && |raw.answers| == |PresentPairs(row, AnswerPairs)|
  {
    PairAnswersSpec(row, AnswerPairs);
    assert |PresentPairs(row, AnswerPairs)| <= AnswerPairs by {
      PresentPairsBound(row, AnswerPairs);
    }
  }

  lemma {:induction false} PresentPairsBound(row: Row, n: nat)
    ensures |PresentPairs(row, n)| <= n
  {
    if n > 0 {
      PresentPairsBound(row, n - 1);
    }
  }

  // ---------------------------------------------------------------------------------------
  // The raw object as the schema sees it.

  function OptionalValue(o: Option<string>): Value
  {
    if o.Some? then Str(o.value) else Undefined
  }

  function EncodeAnswer(a: RawAnswer): Value
  {
    Obj(map["answerText" := Str(a.answerText), "isCorrect" := Bool(a.isCorrect)])
  }

  function EncodeAnswers(answers: seq<RawAnswer>): seq<Value>
  {
    seq(|answers|, i requires 0 <= i < |answers| => EncodeAnswer(answers[i]))
  }

  /** The raw question as a JavaScript object; its keys are `language` and `category`. */
  function Encode(raw: RawQuestion): Value
  {
    Obj(map[
      "question" := Str(raw.question),
      "explanation" := OptionalValue(raw.explanation),
      "difficultyLevelId" := OptionalValue(raw.difficultyLevelId),
      "category" := OptionalValue(raw.category),
      "language" := Str(raw.language),
      "answers" := Arr(EncodeAnswers(raw.answers))])
  }

  /** The issues for the answers among the first `n` whose text is empty. */
  function EmptyAnswerIssues(answers: seq<RawAnswer>, n: nat): seq<Issue>
    requires n <= |answers|
  {
    if n == 0 then []
    else EmptyAnswerIssues(answers, n - 1) +
         (if answers[n - 1].answerText == "" then [Issue([Key("answers"), Index(n - 1), Key("answerText")], AnswerTextRequired)] else [])
  }

  /**
   * What the schema reports for a mapped row, in order: an empty question, a missing
   * explanation, the missing `languageId` (always: the row carries `language` instead), a
   * difficulty id that is not a UUID, fewer than two answers, and each empty answer text.
   * The exactly-one-correct refinement never runs because the missing field aborts the parse.
   */
  function ExpectedIssues(raw: RawQuestion): seq<Issue>
  {
    (if raw.question == "" then [Issue([Key("question")], QuestionRequired)] else []) +
    (if raw.explanation.None? then [Issue([Key("explanation")], "Required")] else []) +
    [Issue([Key("languageId")], "Required")] +
    (if raw.difficultyLevelId.Some? && !IsUuid(raw.difficultyLevelId.value)
     then [Issue([Key("difficultyLevelId")], InvalidDifficultyLevelId)] else []) +
    ((if |raw.answers| < 2 then [Issue([Key("answers")], TooFewAnswers)] else []) +
     EmptyAnswerIssues(raw.answers, |raw.answers|))
  }

  /** The first `n` encoded answers parse without aborting, reporting each empty text. */
  lemma {:induction false} EncodedAnswerIssues(answers: seq<RawAnswer>, n: nat)
    requires n <= |answers|
    ensures var p := Combine(AnswerParts(EncodeAnswers(answers), [Key("answers")])[..n]);
      p.value.Some? && p.issues == EmptyAnswerIssues(answers, n)
  {
    if n > 0 {
      EncodedAnswerIssues(answers, n - 1);
      var at: Path := [Key("answers")];
      var parts := AnswerParts(EncodeAnswers(answers), at);
      CombinePrefix(parts, n);
      assert at + [Index(n - 1)] == [Key("answers"), Index(n - 1)];
      EncodedAnswerParses(answers[n - 1], n - 1);
    }
  }

  /** One encoded answer parses, reporting its text when it is empty. */
  lemma EncodedAnswerParses(a: RawAnswer, i: nat)
    ensures var p := ParseAnswer(EncodeAnswer(a), [Key("answers"), Index(i)]);
      p.value.Some? &&
      p.issues == if a.answerText == "" then [Issue([Key("answers"), Index(i), Key("answerText")], AnswerTextRequired)] else []
  {
    assert [Key("answers"), Index(i)] + [Key("answerText")] == [Key("answers"), Index(i), Key("answerText")];
  }

  /** The encoded answers parse without aborting, reporting each empty text. */
  lemma EncodedAnswersIssues(answers: seq<RawAnswer>)
    ensures var p := Combine(AnswerParts(EncodeAnswers(answers), [Key("answers")]));
      p.value.Some? && p.issues == EmptyAnswerIssues(answers, |answers|)
  {
    var parts := AnswerParts(EncodeAnswers(answers), [Key("answers")]);
    EncodedAnswerIssues(answers, |answers|);
    assert parts[..|answers|] == parts;
  }

  /** The fields the schema reads from the object built from a row. */
  lemma EncodedFields(raw: RawQuestion)
    ensures Encode(raw).Obj?
    ensures Get(Encode(raw).fields, "question") == Str(raw.question)
    ensures Get(Encode(raw).fields, "explanation") == OptionalValue(raw.explanation)
    ensures Get(Encode(raw).fields, "languageId") == Undefined
    ensures Get(Encode(raw).fields, "difficultyLevelId") == OptionalValue(raw.difficultyLevelId)
    ensures Get(Encode(raw).fields, "categoryId") == Undefined
    ensures Get(Encode(raw).fields, "answers") == Arr(EncodeAnswers(raw.answers))
  {
  }

  /** The issues of the scalar fields of an object with the fields of a mapped row. */
  lemma MappedScalarIssues(v: Value, raw: RawQuestion)
    requires v.Obj?
    requires Get(v.fields, "question") == Str(raw.question)
    requires Get(v.fields, "explanation") == OptionalValue(raw.explanation)
    requires Get(v.fields, "languageId") == Undefined
    requires Get(v.fields, "difficultyLevelId") == OptionalValue(raw.difficultyLevelId)
    requires Get(v.fields, "categoryId") == Undefined
    ensures QuestionField(v.fields, []).issues ==
      if raw.question == "" then [Issue([Key("question")], QuestionRequired)] else []
    ensures ExplanationField(v.fields, []).issues ==
      if raw.explanation.None? then [Issue([Key("explanation")], "Required")] else []
    ensures LanguageIdField(v.fields, []) == Parse(None, [Issue([Key("languageId")], "Required")])
    ensures DifficultyLevelIdField(v.fields, []).issues ==
      if raw.difficultyLevelId.Some? && !IsUuid(raw.difficultyLevelId.value)
      then [Issue([Key("difficultyLevelId")], InvalidDifficultyLevelId)] else []
    ensures CategoryIdField(v.fields, []) == Parse(Some(None), [])
  {
    var root: Path := [];
    assert root + [Key("question")] == [Key("question")];
    assert root + [Key("explanation")] == [Key("explanation")];
    assert root + [Key("languageId")] == [Key("languageId")];
    assert root + [Key("difficultyLevelId")] == [Key("difficultyLevelId")];
  }

  /** An object with the fields of a mapped row gets exactly the issues `ExpectedIssues` lists. */
  lemma MappedShapeIssues(v: Value, raw: RawQuestion)
    requires v.Obj?
    requires Get(v.fields, "question") == Str(raw.question)
    requires Get(v.fields, "explanation") == OptionalValue(raw.explanation)
    requires Get(v.fields, "languageId") == Undefined
    requires Get(v.fields, "difficultyLevelId") == OptionalValue(raw.difficultyLevelId)
    requires Get(v.fields, "categoryId") == Undefined
    requires Get(v.fields, "answers") == Arr(EncodeAnswers(raw.answers))
    ensures SafeParseQuestion(v) == Err(ExpectedIssues(raw))
  {
    var f := v.fields;
    var root: Path := [];
    assert root + [Key("answers")] == [Key("answers")];
    MappedScalarIssues(v, raw);
    EncodedAnswersIssues(raw.answers);
    var q := if raw.question == "" then [Issue([Key("question")], QuestionRequired)] else [];
    var e := if raw.explanation.None? then [Issue([Key("explanation")], "Required")] else [];
    var l := [Issue([Key("languageId")], "Required")];
    var d := if raw.difficultyLevelId.Some? && !IsUuid(raw.difficultyLevelId.value)
             then [Issue([Key("difficultyLevelId")], InvalidDifficultyLevelId)] else [];
    var short := if |raw.answers| < 2 then [Issue([Key("answers")], TooFewAnswers)] else [];
    var items := EmptyAnswerIssues(raw.answers, |raw.answers|);
    assert AnswersField(f, []).issues == short + items;
    assert q + e + l + d + [] == q + e + l + d;
    assert ParseShape(v, []) == Parse(None, q + e + l + d + (short + items));
    assert ParseQuestion(v, []) == ParseShape(v, []);
  }

  /** Every mapped row is rejected, with exactly the issues listed by `ExpectedIssues`. */
  lemma MappedRowIssues(raw: RawQuestion)
    ensures SafeParseQuestion(Encode(raw)) == Err(ExpectedIssues(raw))
  {
    EncodedFields(raw);
    MappedShapeIssues(Encode(raw), raw);
  }

  /** The schema never accepts a mapped row, and names the missing `languageId`. */
  lemma MappedRowRejected(raw: RawQuestion)
    ensures SafeParseQuestion(Encode(raw)).Err?
    ensures Issue([Key("languageId")], "Required") in SafeParseQuestion(Encode(raw)).error
    ensures raw.explanation.None? ==> Issue([Key("explanation")], "Required") in SafeParseQuestion(Encode(raw)).error
  {
    MappedRowIssues(raw);
  }

  // ---------------------------------------------------------------------------------------
  // Messages.

  function SegmentText(s: Segment): string
  {
    match s
    case Key(name) => name
    case Index(i) => NatToString(i)
  }

  /** `` `[${err.path.join('.')}] ${err.message}` ``. */
  function FormatIssue(iss: Issue): string
  {
    "[" + Join(seq(|iss.path|, i requires 0 <= i < |iss.path| => SegmentText(iss.path[i])), ".") + "] " + iss.message
  }

  /** The messages of all issues joined with "; ". */
  function ErrorMessage(issues: seq<Issue>): string
  {
    Join(seq(|issues|, i requires 0 <= i < |issues| => FormatIssue(issues[i])), "; ")
  }

  // ---------------------------------------------------------------------------------------
  // Validating the data rows.

  datatype RowError = RowError(row: nat, message: string)
  datatype ParseResult = ParseResult(questions: seq<Question>, errors: seq<RowError>)

  /** A check of a mapped row; the one `validateAndMap` applies is `SchemaCheck`. */
  type RowCheck = RawQuestion -> Result<Question, seq<Issue>>

  /** `questionSchema.safeParse` applied to the object built from a row. */
  const SchemaCheck: RowCheck := raw => SafeParseQuestion(Encode(raw))

  /** Each row as `mapRawToSchema` maps it. */
  function MapRows(rows: seq<Row>): seq<Option<RawQuestion>>
  {
    seq(|rows|, i requires 0 <= i < |rows| => MapRow(rows[i]))
  }

  /** One row of the loop in `validateAndMap`; `rowNumber` is the 1-based row number. */
  function Step(acc: ParseResult, mapped: Option<RawQuestion>, rowNumber: nat, check: RowCheck): ParseResult
  {
    match mapped
    case None => acc
    case Some(raw) =>
      match check(raw)
      case Ok(q) => acc.(questions := acc.questions + [q])
      case Err(issues) => acc.(errors := acc.errors + [RowError(rowNumber, ErrorMessage(issues))])
  }

  /**
   * The result after the mapped rows before index `n`; index 0 holds the header and is never
   * read.
   */
  function Scan(mapped: seq<Option<RawQuestion>>, n: nat, check: RowCheck): ParseResult
    requires n <= |mapped|
  {
    if n <= 1 then ParseResult([], []) else Step(Scan(mapped, n - 1, check), mapped[n - 1], n, check)
  }

  /** One pass of the loop body of `validateAndMap`: validate a mapped row and file its question or its error. */
  method ValidateRow(results: seq<Question>, errors: seq<RowError>, rawQuestion: Option<RawQuestion>, rowNumber: nat, check: RowCheck)
    returns (results': seq<Question>, errors': seq<RowError>)
    ensures ParseResult(results', errors') == Step(ParseResult(results, errors), rawQuestion, rowNumber, check)
  {
    results', errors' := results, errors;
    if rawQuestion.Some? {
      var validation := check(rawQuestion.value);
      if validation.Ok? {
        results' := results + [validation.value];
      } else {
        errors' := errors + [RowError(rowNumber, ErrorMessage(validation.error))];
      }
    }
  }

  /**
   * `validateAndMap`. The schema check is a parameter so that the loop's proof does not
   * depend on the schema's internals; the file parser passes `SchemaCheck`.
   */
  method ValidateAndMap(rows: seq<Row>, check: RowCheck) returns (r: ParseResult)
    ensures r == Scan(MapRows(rows), |rows|, check)
  {
    if |rows| == 0 {
      return ParseResult([], []);
    }
    ghost var mapped := MapRows(rows);
    var results: seq<Question> := [];
    var errors: seq<RowError> := [];
    var i := 1;
    while i < |rows|
      invariant 1 <= i <= |rows|
      invariant ParseResult(results, errors) == Scan(mapped, i, check)
    {
      var rawQuestion := MapRawToSchema(rows[i]);
      assert rawQuestion == mapped[i];
      results, errors := ValidateRow(results, errors, rawQuestion, i + 1, check);
      i := i + 1;
    }
    r := ParseResult(results, errors);
  }

  /** The number of mapped rows before index `n`, header excluded, that were not skipped. */
  function Present(mapped: seq<Option<RawQuestion>>, n: nat): nat
    requires n <= |mapped|
  {
    if n <= 1 then 0 else Present(mapped, n - 1) + (if mapped[n - 1].Some? then 1 else 0)
  }

  /** Every row that was not skipped yields exactly one question or one error; the header neither. */
  lemma {:induction false} ScanCounts(mapped: seq<Option<RawQuestion>>, n: nat, check: RowCheck)
    requires n <= |mapped|
    ensures |Scan(mapped, n, check).questions| + |Scan(mapped, n, check).errors| == Present(mapped, n)
    ensures n >= 1 ==> Present(mapped, n) <= n - 1
  {
    if n > 1 {
      ScanCounts(mapped, n - 1, check);
    }
  }

  /**
   * Every error names a data row (row numbers start at 2, below the header), in increasing
   * order, whose mapped object the check rejected, and carries that rejection's messages.
   */
  lemma {:induction false} ScanErrorsSound(mapped: seq<Option<RawQuestion>>, n: nat, check: RowCheck)
    requires n <= |mapped|
    ensures forall j :: 0 <= j < |Scan(mapped, n, check).errors| ==>
      var e := Scan(mapped, n, check).errors[j];
      2 <= e.row <= n && mapped[e.row - 1].Some? && check(mapped[e.row - 1].value).Err? &&
      e.message == ErrorMessage(check(mapped[e.row - 1].value).error)
    ensures forall j, k :: 0 <= j < k < |Scan(mapped, n, check).errors| ==>
      Scan(mapped, n, check).errors[j].row < Scan(mapped, n, check).errors[k].row
  {
    if n > 1 {
      ScanErrorsSound(mapped, n - 1, check);
      var prev := Scan(mapped, n - 1, check).errors;
      var es := Scan(mapped, n, check).errors;
      if mapped[n - 1].Some? && check(mapped[n - 1].value).Err? {
        assert es == prev + [RowError(n, ErrorMessage(check(mapped[n - 1].value).error))];
        forall j | 0 <= j < |prev|
          ensures es[j] == prev[j]
        {
        }
      } else {
        assert es == prev;
      }
    }
  }

  /** Every data row whose mapped object the check rejects is reported. */
  lemma {:induction false} ScanErrorsComplete(mapped: seq<Option<RawQuestion>>, n: nat, i: nat, check: RowCheck)
    requires 1 <= i < n <= |mapped|
    requires mapped[i].Some? && check(mapped[i].value).Err?
    ensures exists j :: 0 <= j < |Scan(mapped, n, check).errors| && Scan(mapped, n, check).errors[j].row == i + 1
  {
    if i == n - 1 {
      var es := Scan(mapped, n, check).errors;
      assert es[|es| - 1].row == i + 1;
    } else {
      ScanErrorsComplete(mapped, n - 1, i, check);
      var j :| 0 <= j < |Scan(mapped, n - 1, check).errors| && Scan(mapped, n - 1, check).errors[j].row == i + 1;
      assert Scan(mapped, n, check).errors[j].row == i + 1;
    }
  }

  /** Every question returned is what the check accepted for some data row. */
  lemma {:induction false} ScanQuestionsSound(mapped: seq<Option<RawQuestion>>, n: nat, check: RowCheck, k: nat)
    requires n <= |mapped|
    requires k < |Scan(mapped, n, check).questions|
    ensures exists i :: 1 <= i < n && mapped[i].Some? && check(mapped[i].value) == Ok(Scan(mapped, n, check).questions[k])
  {
    var prev := Scan(mapped, n - 1, check);
    if k < |prev.questions| {
      ScanQuestionsSound(mapped, n - 1, check, k);
      var i :| 1 <= i < n - 1 && mapped[i].Some? && check(mapped[i].value) == Ok(prev.questions[k]);
      assert Scan(mapped, n, check).questions[k] == prev.questions[k];
    } else {
      assert mapped[n - 1].Some? && check(mapped[n - 1].value) == Ok(Scan(mapped, n, check).questions[k]);
    }
  }

  /** What the check accepts for the mapped rows from `lo` up to `n`, in row order. */
  function AcceptedParses(mapped: seq<Option<RawQuestion>>, lo: nat, n: nat, check: RowCheck): seq<Question>
    requires n <= |mapped|
    decreases n - lo
  {
    if lo >= n then []
    else
      var here := if mapped[lo].Some? && check(mapped[lo].value).Ok? then [check(mapped[lo].value).value] else [];
      here + AcceptedParses(mapped, lo + 1, n, check)
  }

  /** Extending the range by one row appends that row's accepted parse, if any. */
  lemma {:induction false} AcceptedParsesSnoc(mapped: seq<Option<RawQuestion>>, lo: nat, n: nat, check: RowCheck)
    requires lo < n <= |mapped|
    ensures AcceptedParses(mapped, lo, n, check) ==
      AcceptedParses(mapped, lo, n - 1, check) +
      (if mapped[n - 1].Some? && check(mapped[n - 1].value).Ok? then [check(mapped[n - 1].value).value] else [])
    decreases n - lo
  {
    if lo < n - 1 {
      AcceptedParsesSnoc(mapped, lo + 1, n, check);
    }
  }

  /**
   * The questions are exactly the accepted parses of the data rows, in row order: each row
   * the check accepts yields its question once, and no other question appears.
   */
  lemma {:induction false} ScanQuestionsInOrder(mapped: seq<Option<RawQuestion>>, n: nat, check: RowCheck)
    requires n <= |mapped|
    ensures Scan(mapped, n, check).questions == AcceptedParses(mapped, 1, n, check)
  {
    if n > 1 {
      ScanQuestionsInOrder(mapped, n - 1, check);
      AcceptedParsesSnoc(mapped, 1, n, check);
    }
  }

  /** A check that rejects everything lets no question through. */
  lemma {:induction false} ScanRejecting(mapped: seq<Option<RawQuestion>>, n: nat, check: RowCheck)
    requires n <= |mapped|
    requires forall raw :: check(raw).Err?
    ensures Scan(mapped, n, check).questions == []
  {
    if n > 1 {
      ScanRejecting(mapped, n - 1, check);
    }
  }

  /** The first row is a header: replacing it changes nothing. */
  lemma {:induction false} HeaderIgnored(mapped: seq<Option<RawQuestion>>, header: Option<RawQuestion>, n: nat, check: RowCheck)
    requires 1 <= n <= |mapped|
    ensures Scan(mapped[0 := header], n, check) == Scan(mapped, n, check)
  {
    if n > 1 {
      HeaderIgnored(mapped, header, n - 1, check);
      assert mapped[0 := header][n - 1] == mapped[n - 1];
    }
  }

  /** A row is skipped exactly when its first cell is falsy. */
  lemma {:induction false} PresentRows(rows: seq<Row>, n: nat)
    requires n <= |rows|
    ensures Present(MapRows(rows), n) == DataRows(rows, n)
  {
    if n > 1 {
      PresentRows(rows, n - 1);
      assert MapRows(rows)[n - 1] == MapRow(rows[n - 1]);
    }
  }

  /** The number of data rows before index `n` whose first cell is truthy. */
  function DataRows(rows: seq<Row>, n: nat): nat
    requires n <= |rows|
  {
    if n <= 1 then 0 else DataRows(rows, n - 1) + (if Truthy(CellAt(rows[n - 1], 0)) then 1 else 0)
  }

  /** What is in the header row does not matter to the upload. */
  lemma UploadIgnoresHeader(rows: seq<Row>, header: Row)
    requires |rows| >= 1
    ensures Scan(MapRows(rows[0 := header]), |rows|, SchemaCheck) == Scan(MapRows(rows), |rows|, SchemaCheck)
  {
    assert MapRows(rows[0 := header]) == MapRows(rows)[0 := MapRow(header)];
    HeaderIgnored(MapRows(rows), MapRow(header), |rows|, SchemaCheck);
  }

  /**
   * A check that rejects every object with the issues `expected` lists lets no question
   * through, and each error carries the messages of those issues.
   */
  lemma ScanRejectsWith(mapped: seq<Option<RawQuestion>>, n: nat, check: RowCheck, expected: RawQuestion -> seq<Issue>)
    requires n <= |mapped|
    requires forall raw :: check(raw) == Err(expected(raw))
    ensures Scan(mapped, n, check).questions == []
    ensures forall j :: 0 <= j < |Scan(mapped, n, check).errors| ==>
      var e := Scan(mapped, n, check).errors[j];
      2 <= e.row <= n && mapped[e.row - 1].Some? && e.message == ErrorMessage(expected(mapped[e.row - 1].value))
  {
    ScanRejecting(mapped, n, check);
    ScanErrorsSound(mapped, n, check);
  }

  /** The schema rejects every mapped row, with the issues `ExpectedIssues` lists. */
  lemma SchemaCheckRejectsAll()
    ensures forall raw :: SchemaCheck(raw) == Err(ExpectedIssues(raw))
  {
    forall raw
      ensures SchemaCheck(raw) == Err(ExpectedIssues(raw))
    {
      MappedRowIssues(raw);
    }
  }

  /**
   * With the question schema, no row ever becomes a question, and every non-empty data row
   * yields one error carrying the messages `ExpectedIssues` lists for it.
   */
  lemma UploadRejectsAll(rows: seq<Row>)
    ensures Scan(MapRows(rows), |rows|, SchemaCheck).questions == []
    ensures |Scan(MapRows(rows), |rows|, SchemaCheck).errors| == DataRows(rows, |rows|)
    ensures forall j :: 0 <= j < |Scan(MapRows(rows), |rows|, SchemaCheck).errors| ==>
      var e := Scan(MapRows(rows), |rows|, SchemaCheck).errors[j];
      2 <= e.row <= |rows| && MapRows(rows)[e.row - 1].Some? &&
      e.message == ErrorMessage(ExpectedIssues(MapRows(rows)[e.row - 1].value))
  {
    var mapped := MapRows(rows);
    SchemaCheckRejectsAll();
    ScanRejectsWith(mapped, |rows|, SchemaCheck, ExpectedIssues);
    ScanCounts(mapped, |rows|, SchemaCheck);
    PresentRows(rows, |rows|);
  }

  /** Every non-empty data row is reported with its row number. */
  lemma UploadReportsEveryRow(rows: seq<Row>, i: nat)
    requires 1 <= i < |rows| && Truthy(CellAt(rows[i], 0))
    ensures exists j :: (0 <= j < |Scan(MapRows(rows), |rows|, SchemaCheck).errors| &&
                         Scan(MapRows(rows), |rows|, SchemaCheck).errors[j].row == i + 1)
  {
    var mapped := MapRows(rows);
    assert mapped[i] == MapRow(rows[i]);
    MappedRowIssues(mapped[i].value);
    ScanErrorsComplete(mapped, |rows|, i, SchemaCheck);
  }

  // ---------------------------------------------------------------------------------------
  // Dispatch on the file's MIME type.

  datatype FileKind = Csv | Excel | Unsupported

  const CsvType := "text/csv"
  const XlsxType := "application/vnd.openxmlformats-officedocument.spreadsheetml.sheet"
  const XlsType := "application/vnd.ms-excel"
  const UnsupportedFileType := "Unsupported file type"

  /** The MIME type, compared case-insensitively. */
  function Kind(fileType: string): (k: FileKind)
  {
    var mime := Lower(fileType);
    if mime == CsvType then Csv
    else if mime == XlsxType || mime == XlsType then Excel
    else Unsupported
  }

  /** What `parseQuestionsFromFile` returns, given the rows the sheet reader produced. */
  function FileResult(fileType: string, textRows: seq<Row>, bufferRows: seq<Row>): (r: ParseResult)
  {
    match Kind(fileType)
    case Csv => Scan(MapRows(textRows), |textRows|, SchemaCheck)
    case Excel => Scan(MapRows(bufferRows), |bufferRows|, SchemaCheck)
    case Unsupported => ParseResult([], [RowError(0, UnsupportedFileType)])
  }

  /**
   * `parseQuestionsFromFile`. The sheet reader is outside the model: `textRows` are the rows
   * of the first sheet of the file read as UTF-8 text, `bufferRows` those of the file read as
   * a workbook buffer.
   */
  method ParseQuestionsFromFile(fileType: string, textRows: seq<Row>, bufferRows: seq<Row>) returns (r: ParseResult)
    ensures r == FileResult(fileType, textRows, bufferRows)
  {
    var mimeType := Lower(fileType);
    if mimeType == CsvType {
      r := ValidateAndMap(textRows, SchemaCheck);
      return;
    }
    if mimeType == XlsxType || mimeType == XlsType {
      r := ValidateAndMap(bufferRows, SchemaCheck);
      return;
    }
    r := ParseResult([], [RowError(0, UnsupportedFileType)]);
  }

  /**
   * An upload never yields a question. Row 0 is reported exactly for an unsupported type,
   * otherwise every error names a data row from 2 on.
   */
  lemma FileResultShape(fileType: string, textRows: seq<Row>, bufferRows: seq<Row>)
    ensures FileResult(fileType, textRows, bufferRows).questions == []
    ensures Kind(fileType) == Unsupported <==>
      exists j :: 0 <= j < |FileResult(fileType, textRows, bufferRows).errors| &&
        FileResult(fileType, textRows, bufferRows).errors[j].row == 0
  {
    UploadRejectsAll(textRows);
    UploadRejectsAll(bufferRows);
    if Kind(fileType) == Unsupported {
      assert FileResult(fileType, textRows, bufferRows).errors[0].row == 0;
    }
  }

  lemma LowerCharIdempotent(c: char)
    ensures LowerChar(LowerChar(c)) == LowerChar(c)
  {
  }

  /** The type's case does not matter: a type and its lowercase form are dispatched alike. */
  lemma KindIgnoresCase(fileType: string)
    ensures Kind(Lower(fileType)) == Kind(fileType)
  {
    var l := Lower(fileType);
    assert Lower(l) == l by {
      forall i | 0 <= i < |l|
        ensures Lower(l)[i] == l[i]
      {
        LowerCharIdempotent(fileType[i]);
      }
    }
  }
}
